/** The records of types.ts, plus the Option/Result wrappers the model uses for
    JavaScript's optional fields, `null` and thrown errors. */
module Types {

  /** `T | null` and the optional fields `proposedStructure?` and `suggestion?`. */
  datatype Option<+T> = None | Some(value: T)

  /** The outcome of an asynchronous call that may throw: the value, or the
      thrown error's `message`. */
  datatype Result<+T> = Ok(value: T) | Err(message: string)

  /** `AppState` in types.ts: the phase of the top-level screen. */
  datatype Phase = Uploading | Structuring | Editing

  /** `DocumentData`: the uploaded file, its extracted text, the approved outline
      (absent until the outline step) and the rewritten text shown in the editor. */
  datatype DocumentData = DocumentData(
    fileName: string,
    originalText: string,
    proposedStructure: Option<string>,
    improvedText: string)

  /** `MessageSender`. */
  datatype Sender = User | Bot | System

  /** `ChatMessage` without its `id` (built from the clock and a random number,
      and used only as a rendering key). */
  datatype ChatMessage = ChatMessage(sender: Sender, text: string, suggestion: Option<string>)

  /** JavaScript truthiness of an optional string: absent and `''` are both false. */
  predicate Truthy(s: Option<string>)
  {
    s.Some? && s.value != ""
  }
}
