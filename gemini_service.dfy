/** services/geminiService.ts: the guard and fallback policy of the four
    helpers that ask the language model. The model's reply is a parameter:
    `Ok(text)` when `generateContent` resolves with `text`, `Err(_)` when it
    throws; the prompt text and the network call are not modelled. */
module GeminiService {
  import opened Types
  import opened Strings

  const ExtractionErrorPrefix: string := "Lo siento, ha ocurrido un error al procesar la sección \""
  const ExtractionErrorSuffix: string := "\"."
  const PolishErrorLine: string := "Hubo un error al pulir esta sección. Por favor, inténtalo de nuevo."
  const NoOriginalMessage: string :=
    "No hay texto original con el que comparar, ¡así que parece que vas por buen camino! "
    + "Cuando estés listo, acepta y continúa."
  const SuggestionsErrorMessage: string :=
    "No pude generar sugerencias en este momento. "
    + "Por favor, revisa el texto tú mismo y continúa cuando estés listo."
  const ReferencesErrorMessage: string :=
    "No se pudo generar la lista de referencias en este momento. "
    + "Puedes intentar de nuevo más tarde o añadirla manualmente."

  /** The text returned when extracting `sectionTitle` fails. */
  function ExtractionFallback(sectionTitle: string): string
  {
    ExtractionErrorPrefix + sectionTitle + ExtractionErrorSuffix
  }

  /** The text returned when polishing fails: the error line, a blank line,
      then the user's own text. */
  function PolishFallback(userText: string): string
  {
    PolishErrorLine + "\n\n" + userText
  }

  /** `extractSectionFromDocument`. */
  function ExtractSection(sectionTitle: string, documentText: string, reply: Result<string>): (r: string)
    ensures reply.Ok? ==> r == reply.value
    ensures reply.Err? ==> r == ExtractionFallback(sectionTitle)
  {
    match reply
    case Ok(text) => text
    case Err(_) => ExtractionFallback(sectionTitle)
  }

  /** `polishSectionWithAI`. */
  function PolishSection(originalText: string, userText: string, sectionTitle: string, reply: Result<string>): (r: string)
    ensures reply.Ok? ==> r == reply.value
    ensures reply.Err? ==> r == PolishFallback(userText)
  {
    match reply
    case Ok(text) => text
    case Err(_) => PolishFallback(userText)
  }

  /** `generateImprovementSuggestions`: `!originalText || !originalText.trim()`
      is the blank test, since the empty string trims to itself. */
  function ImprovementSuggestions(originalText: string, polishedText: string, reply: Result<string>): (r: string)
    ensures IsBlank(originalText) ==> r == NoOriginalMessage
    ensures !IsBlank(originalText) && reply.Ok? ==> r == reply.value
    ensures !IsBlank(originalText) && reply.Err? ==> r == SuggestionsErrorMessage
  {
    if originalText == "" || IsBlank(originalText) then NoOriginalMessage
    else
      match reply
      case Ok(text) => text
      case Err(_) => SuggestionsErrorMessage
  }

  /** `generateReferencesSection`. */
  function ReferencesSection(articleContent: string, reply: Result<string>): (r: string)
    ensures reply.Ok? ==> r == reply.value
    ensures reply.Err? ==> r == ReferencesErrorMessage
  {
    match reply
    case Ok(text) => text
    case Err(_) => ReferencesErrorMessage
  }

  /** The extraction fallback names the section: the title can be read back
      from between the quotes, so different sections give different texts. */
  lemma ExtractionFallbackNamesSection(sectionTitle: string, documentText: string, message: string)
    ensures var r := ExtractSection(sectionTitle, documentText, Err(message));
      StartsWith(r, ExtractionErrorPrefix)
      && r[|ExtractionErrorPrefix|..|r| - |ExtractionErrorSuffix|] == sectionTitle
      && r[|r| - |ExtractionErrorSuffix|..] == ExtractionErrorSuffix
  {
    var r := ExtractionFallback(sectionTitle);
    assert r == ExtractionErrorPrefix + (sectionTitle + ExtractionErrorSuffix);
    assert r[..|ExtractionErrorPrefix|] == ExtractionErrorPrefix;
    assert r[|ExtractionErrorPrefix|..] == sectionTitle + ExtractionErrorSuffix;
    assert (sectionTitle + ExtractionErrorSuffix)[..|sectionTitle|] == sectionTitle;
  }

  /** Two sections that both fail give texts that tell them apart. */
  lemma ExtractionFallbackInjective(title1: string, title2: string)
    requires title1 != title2
    ensures ExtractionFallback(title1) != ExtractionFallback(title2)
  {
    ExtractionFallbackNamesSection(title1, "", "");
    ExtractionFallbackNamesSection(title2, "", "");
  }

  /** A failed polish loses nothing the user wrote: the result is the error
      line, a blank line, then the user's text verbatim at the end. */
  lemma PolishFallbackKeepsUserText(originalText: string, userText: string, sectionTitle: string, message: string)
    ensures var r := PolishSection(originalText, userText, sectionTitle, Err(message));
      StartsWith(r, PolishErrorLine + "\n\n")
      && |r| == |PolishErrorLine| + 2 + |userText|
      && r[|r| - |userText|..] == userText
  {
    var r := PolishFallback(userText);
    assert r[..|PolishErrorLine + "\n\n"|] == PolishErrorLine + "\n\n";
  }

  /** For a blank original the oracle is never consulted: the answer is the
      same whatever it would have replied, and the polished text is ignored. */
  lemma BlankOriginalSkipsOracle(originalText: string, polished1: string, polished2: string, reply1: Result<string>, reply2: Result<string>)
    requires IsBlank(originalText)
    ensures ImprovementSuggestions(originalText, polished1, reply1) == ImprovementSuggestions(originalText, polished2, reply2)
  {
  }

  /** The guard is exactly the blank test: the empty string and whitespace
      (newlines, tabs, no-break spaces) are skipped, and nothing else is. */
  lemma SuggestionsGuardExact(originalText: string, reply: Result<string>)
    ensures AllWhitespace(originalText) ==> ImprovementSuggestions(originalText, "", reply) == NoOriginalMessage
    ensures !AllWhitespace(originalText) && reply.Ok? ==> ImprovementSuggestions(originalText, "", reply) == reply.value
  {
    BlankIffAllWhitespace(originalText);
  }

  /** None of the four helpers lets a failure through: every failure gives a
      non-empty, fixed or title-bearing text, never the reply's error. */
  lemma FailuresAreAnswered(sectionTitle: string, originalText: string, userText: string, message: string)
    ensures ExtractSection(sectionTitle, "", Err(message)) != ""
    ensures PolishSection(originalText, userText, sectionTitle, Err(message)) != ""
    ensures ImprovementSuggestions(originalText, userText, Err(message)) != ""
    ensures ReferencesSection("", Err(message)) != ""
  {
    assert |ExtractionErrorSuffix| == 2;
    assert |PolishFallback(userText)| >= 2;
    assert |NoOriginalMessage| > 0 && |SuggestionsErrorMessage| > 0;
    assert |ReferencesErrorMessage| > 0;
  }
}
