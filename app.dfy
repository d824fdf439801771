/** App.tsx: the top-level phase machine uploading -> structuring -> editing,
    with a reset from anywhere and a fallback that resets whenever the phase
    and the document disagree. */
module App {
  import opened Types
  import EditorView

  /** What `renderContent` returns: one of the three screens, or `null`
      after it has called the reset. */
  datatype Screen =
    | UploadScreen(error: Option<string>)
    | StructureScreen(document: DocumentData)
    | EditorScreen(document: DocumentData)
    | NoScreen

  /** The phase/document pairs `renderContent` shows without resetting. */
  predicate Consistent(phase: Phase, document: Option<DocumentData>)
  {
    match phase
    case Uploading => true
    case Structuring => document.Some?
    case Editing => document.Some? && Truthy(document.value.proposedStructure)
  }

  class App {
    var appState: Phase
    var document: Option<DocumentData>
    var error: Option<string>

    /** The three state cells start as uploading, no document, no error. */
    constructor ()
      ensures appState == Uploading && document == None && error == None
    {
      appState := Uploading;
      document := None;
      error := None;
    }

    /** `handleFileProcessed`: stores exactly the new document, moves to the
        outline step and clears the error. */
    method HandleFileProcessed(data: DocumentData)
      modifies this
      ensures appState == Structuring && document == Some(data) && error == None
    {
      document := Some(data);
      appState := Structuring;
      error := None;
    }

    /** `handleStructureApproved`: records the outline on the document (no
        document stays none; the other fields are kept) and moves to editing. */
    method HandleStructureApproved(structure: string)
      modifies this
      ensures appState == Editing && error == old(error)
      ensures old(document).None? ==> document == None
      ensures old(document).Some? ==>
        document == Some(old(document).value.(proposedStructure := Some(structure)))
    {
      document := match document
        case Some(d) => Some(d.(proposedStructure := Some(structure)))
        case None => None;
      appState := Editing;
    }

    /** `handleProcessingError`: sets the error and touches nothing else. */
    method HandleProcessingError(message: string)
      modifies this`error
      ensures error == Some(message)
      ensures appState == old(appState) && document == old(document)
    {
      error := Some(message);
    }

    /** `handleReset`: back to the initial state from any phase. */
    method HandleReset()
      modifies this
      ensures appState == Uploading && document == None && error == None
    {
      appState := Uploading;
      document := None;
      error := None;
    }

    /** The `setDocument` handed to the editor, called with the updater of an
        approved suggestion: only the document changes, and a consistent phase
        stays consistent. */
    method ApplyEditorUpdate(suggestion: string)
      modifies this`document
      ensures document == EditorView.ApproveSuggestion(old(document), suggestion)
      ensures old(Consistent(appState, document)) ==> Consistent(appState, document)
    {
      EditorView.ApproveChangesOnlyText(document, suggestion);
      document := EditorView.ApproveSuggestion(document, suggestion);
    }

    /** `renderContent`: shows the screen of the current phase when the state
        is consistent; otherwise resets and renders nothing. Afterwards the
        state is always consistent. */
    method RenderContent() returns (screen: Screen)
      modifies this
      ensures Consistent(appState, document)
      ensures old(Consistent(appState, document)) ==>
        appState == old(appState) && document == old(document) && error == old(error)
      ensures old(Consistent(appState, document)) ==>
        screen == match old(appState)
          case Uploading => UploadScreen(old(error))
          case Structuring => StructureScreen(old(document).value)
          case Editing => EditorScreen(old(document).value)
      ensures !old(Consistent(appState, document)) ==>
        screen == NoScreen && appState == Uploading && document == None && error == None
    {
      match appState {
        case Structuring =>
          if document.Some? {
            return StructureScreen(document.value);
          }
          HandleReset();
          return NoScreen;
        case Editing =>
          if document.Some? && Truthy(document.value.proposedStructure) {
            return EditorScreen(document.value);
          }
          HandleReset();
          return NoScreen;
        case Uploading =>
          return UploadScreen(error);
      }
    }
  }

  /** Every document App hands to the editor has an outline, so the editor's
      own reset guard never fires. */
  lemma EditorGuardNeverFires(document: Option<DocumentData>)
    requires Consistent(Editing, document)
    ensures EditorView.Render(document.value) == EditorView.Editor(document.value)
  {
  }

  /** Upload then approve, as the screens see it: the outline screen shows the
      uploaded document; after approval the editor shows it with the outline,
      unless the outline was `''`, which the fallback treats as missing. */
  method UploadThenApprove(data: DocumentData, structure: string) returns (first: Screen, second: Screen)
    ensures first == StructureScreen(data)
    ensures structure != "" ==> second == EditorScreen(data.(proposedStructure := Some(structure)))
    ensures structure == "" ==> second == NoScreen
  {
    var app := new App();
    app.HandleFileProcessed(data);
    first := app.RenderContent();
    app.HandleStructureApproved(structure);
    second := app.RenderContent();
  }
}
