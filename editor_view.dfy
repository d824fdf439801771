/** components/EditorView.tsx: folding an approved suggestion into the
    rewritten text, and the guard that sends a document without an outline
    back to the start. */
module EditorView {
  import opened Types
  import opened Strings
  import FileUploadView

  /** The placeholder `handleApproveSuggestion` compares against (one literal
      in the component, written here in three pieces that join to it). The
      pieces keep each literal short enough for the verifier to inspect
      character by character, which the no-line-break lemma needs. */
  const Placeholder: string :=
    "Tu documento reescrito aparecerá aquí. "
    + "Responde a las preguntas del asistente " + "para empezar."

  /** The functional updater of `handleApproveSuggestion`: no document stays
      no document; the placeholder gives way to the suggestion; any other text
      gets the suggestion after a blank line. */
  function ApproveSuggestion(prevDoc: Option<DocumentData>, suggestion: string): Option<DocumentData>
  {
    match prevDoc
    case None => None
    case Some(d) =>
      var newText := if d.improvedText == Placeholder then suggestion
                     else d.improvedText + "\n\n" + suggestion;
      Some(d.(improvedText := newText))
  }

  /** Approving changes the rewritten text and nothing else, and never
      creates or removes the document. */
  lemma ApproveChangesOnlyText(prevDoc: Option<DocumentData>, suggestion: string)
    ensures ApproveSuggestion(prevDoc, suggestion).Some? <==> prevDoc.Some?
    ensures prevDoc.Some? ==>
      var next := ApproveSuggestion(prevDoc, suggestion).value;
      next.fileName == prevDoc.value.fileName && next.originalText == prevDoc.value.originalText
      && next.proposedStructure == prevDoc.value.proposedStructure
  {
  }

  /** On the placeholder, the rewritten text becomes exactly the suggestion. */
  lemma ApproveReplacesPlaceholder(d: DocumentData, suggestion: string)
    requires d.improvedText == Placeholder
    ensures ApproveSuggestion(Some(d), suggestion) == Some(d.(improvedText := suggestion))
  {
  }

  /** On any other text, the old text is kept as a prefix, followed by a blank
      line and the suggestion, so it grows by |suggestion| + 2. */
  lemma ApproveAppends(d: DocumentData, suggestion: string)
    requires d.improvedText != Placeholder
    ensures var t := ApproveSuggestion(Some(d), suggestion).value.improvedText;
      StartsWith(t, d.improvedText) && t[|d.improvedText|..] == "\n\n" + suggestion
      && |t| == |d.improvedText| + |suggestion| + 2
  {
    var t := ApproveSuggestion(Some(d), suggestion).value.improvedText;
    assert t == d.improvedText + ("\n\n" + suggestion);
  }

  /** The placeholder holds no line break, so text that went through one
      append can never be mistaken for it. */
  lemma PlaceholderHasNoNewline()
    ensures '\n' !in Placeholder
  {
  }

  /** Approvals one after another, as `setDocument` applies them. */
  function ApproveAll(doc: Option<DocumentData>, suggestions: seq<string>): Option<DocumentData>
    decreases suggestions
  {
    if suggestions == [] then doc
    else ApproveAll(ApproveSuggestion(doc, suggestions[0]), suggestions[1..])
  }

  /** No deduplication: the same suggestion approved twice is appended twice. */
  lemma ApproveTwiceAppendsTwice(d: DocumentData, suggestion: string)
    requires d.improvedText != Placeholder
    ensures ApproveAll(Some(d), [suggestion, suggestion])
         == Some(d.(improvedText := d.improvedText + "\n\n" + suggestion + "\n\n" + suggestion))
  {
    ApproveAllAppends(d, [suggestion, suggestion]);
    JoinThree(d.improvedText, suggestion);
  }

  lemma JoinThree(t: string, suggestion: string)
    ensures Join([t] + [suggestion, suggestion], "\n\n") == t + "\n\n" + suggestion + "\n\n" + suggestion
  {
    var sep := "\n\n";
    assert ([t] + [suggestion, suggestion])[1..] == [suggestion, suggestion];
    assert [suggestion, suggestion][1..] == [suggestion];
    assert Join([suggestion], sep) == suggestion;
    assert Join([suggestion, suggestion], sep) == suggestion + sep + suggestion;
    assert Join([t] + [suggestion, suggestion], sep) == t + sep + (suggestion + sep + suggestion);
  }

  /** Starting from text other than the placeholder, every approval is added
      after a blank line: the result is the join of the old text and the
      suggestions with blank lines. */
  lemma {:induction false} ApproveAllAppends(d: DocumentData, suggestions: seq<string>)
    requires d.improvedText != Placeholder
    ensures ApproveAll(Some(d), suggestions)
         == Some(d.(improvedText := Join([d.improvedText] + suggestions, "\n\n")))
    decreases suggestions
  {
    if suggestions != [] {
      var t1 := d.improvedText + "\n\n" + suggestions[0];
      assert t1[|d.improvedText|] == '\n';
      PlaceholderHasNoNewline();
      assert t1 != Placeholder;
      ApproveAllAppends(d.(improvedText := t1), suggestions[1..]);
      JoinPrepend(d.improvedText + "\n\n", suggestions, "\n\n");
      assert ([d.improvedText] + suggestions)[1..] == suggestions;
    }
  }

  /** From the placeholder, the rewritten text is the approved suggestions
      joined with blank lines (provided the first suggestion is not itself
      the placeholder text). */
  lemma ApproveAllFromPlaceholder(d: DocumentData, suggestions: seq<string>)
    requires d.improvedText == Placeholder
    requires suggestions != [] && suggestions[0] != Placeholder
    ensures ApproveAll(Some(d), suggestions) == Some(d.(improvedText := Join(suggestions, "\n\n")))
  {
    ApproveAllAppends(d.(improvedText := suggestions[0]), suggestions[1..]);
    assert [suggestions[0]] + suggestions[1..] == suggestions;
  }

  /** The placeholder written at upload is character for character the one
      tested here, so the first approval on a fresh document replaces it. */
  lemma UploadPlaceholderMatches(fileName: string, text: string, suggestion: string)
    ensures FileUploadView.ImprovedTextPlaceholder == Placeholder
    ensures ApproveSuggestion(Some(FileUploadView.NewDocument(fileName, text)), suggestion)
         == Some(FileUploadView.NewDocument(fileName, text).(improvedText := suggestion))
  {
  }

  /** What the component renders. */
  datatype Rendered = ResetRequested | Editor(document: DocumentData)

  /** The guard before rendering: a document without an outline (absent or
      `''`) asks for a reset instead of showing the editor. */
  function Render(document: DocumentData): (r: Rendered)
    ensures r == ResetRequested <==> !Truthy(document.proposedStructure)
    ensures r.Editor? ==> r.document == document
  {
    if !Truthy(document.proposedStructure) then ResetRequested else Editor(document)
  }
}
