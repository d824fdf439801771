/** components/StructureView.tsx: the outline returned by the model, shown
    line by line as headings, list items and paragraphs, and the approve
    button that forwards it. */
module StructureView {
  import opened Types
  import opened Strings

  const StructureErrorMessage: string :=
    "No se pudo generar una estructura para el documento. Por favor, intenta empezar de nuevo."

  /** The element `renderStructure` produces for a line. */
  datatype Node = Heading2(text: string) | Heading3(text: string) | ListItem(text: string) | Paragraph(text: string)

  /** One line of `renderStructure`: trimmed, then `# ` is an `h2`, `## ` an
      `h3`, `* ` or `- ` a list item (each without its marker), any other
      non-empty line a paragraph of the whole line, and an empty line nothing. */
  function ClassifyLine(raw: string): Option<Node>
  {
    var line := Trim(raw);
    if StartsWith(line, "# ") then Some(Heading2(line[2..]))
    else if StartsWith(line, "## ") then Some(Heading3(line[3..]))
    else if StartsWith(line, "* ") || StartsWith(line, "- ") then Some(ListItem(line[2..]))
    else if line != "" then Some(Paragraph(line))
    else None
  }

  /** The two heading markers never both apply, so `##` lines reach the `h3` branch. */
  lemma HeadingMarkersDisjoint(line: string)
    ensures !(StartsWith(line, "# ") && StartsWith(line, "## "))
  {
    if StartsWith(line, "## ") {
      assert line[..2] == line[..3][..2] == "##";
      assert "##"[1] != "# "[1];
    }
  }

  /** What each kind of element says about its line, in both directions:
      the element is determined by the trimmed line's marker, and its text is
      the trimmed line with the marker removed (or all of it, for a paragraph). */
  lemma ClassifyLineSpec(raw: string)
    ensures var line := Trim(raw); match ClassifyLine(raw)
      case None => line == ""
      case Some(Heading2(t)) => line == "# " + t
      case Some(Heading3(t)) => line == "## " + t
      case Some(ListItem(t)) => line == "* " + t || line == "- " + t
      case Some(Paragraph(t)) =>
        t == line && t != "" && !StartsWith(line, "# ") && !StartsWith(line, "## ")
        && !StartsWith(line, "* ") && !StartsWith(line, "- ")
    ensures StartsWith(Trim(raw), "## ") ==> ClassifyLine(raw) == Some(Heading3(Trim(raw)[3..]))
    ensures StartsWith(Trim(raw), "# ") ==> ClassifyLine(raw) == Some(Heading2(Trim(raw)[2..]))
  {
    var line := Trim(raw);
    HeadingMarkersDisjoint(line);
    if StartsWith(line, "# ") {
      assert line == "# " + line[2..];
    } else if StartsWith(line, "## ") {
      assert line == "## " + line[3..];
    } else if StartsWith(line, "* ") {
      assert line == "* " + line[2..];
    } else if StartsWith(line, "- ") {
      assert line == "- " + line[2..];
    }
  }

  /** Surrounding whitespace on a line never changes its element. */
  lemma ClassifyIgnoresPadding(raw: string)
    ensures ClassifyLine(Trim(raw)) == ClassifyLine(raw)
  {
    var line := Trim(raw);
    TrimIdempotent(raw);
    assert Trim(line) == line;
  }

  /** The elements of a list of lines, in order. */
  function ClassifyLines(lines: seq<string>): (r: seq<Option<Node>>)
    ensures |r| == |lines|
    ensures forall i :: 0 <= i < |lines| ==> r[i] == ClassifyLine(lines[i])
  {
    if lines == [] then [] else [ClassifyLine(lines[0])] + ClassifyLines(lines[1..])
  }

  /** `renderStructure`: `text.split('\n').map(...)`. */
  function RenderStructure(text: string): seq<Option<Node>>
  {
    ClassifyLines(Split(text, '\n'))
  }

  /** One entry (possibly nothing) per line: there is one more entry than
      there are line breaks, and entry i is the element of line i. */
  lemma RenderStructureLines(text: string)
    ensures |RenderStructure(text)| == multiset(text)['\n'] + 1
    ensures forall i :: 0 <= i < |RenderStructure(text)| ==>
      RenderStructure(text)[i] == ClassifyLine(Split(text, '\n')[i])
  {
    SplitSpec(text, '\n');
  }

  /** For an outline written as the lines `lines` (none containing a line
      break), rendering gives their elements in the same order. */
  lemma RenderJoinedLines(lines: seq<string>)
    requires |lines| >= 1
    requires forall i :: 0 <= i < |lines| ==> '\n' !in lines[i]
    ensures RenderStructure(Join(lines, "\n")) == ClassifyLines(lines)
  {
    SplitJoin(lines, '\n');
  }

  class Outline {
    var structure: Option<string>
    var isLoading: bool

    constructor ()
      ensures structure == None && isLoading
    {
      structure := None;
      isLoading := true;
    }

    /** The effect, once `generateDocumentStructure` has resolved to or thrown
        `generated`: success stores the outline, failure reports the fixed
        message (returned here) and keeps the old one; loading ends either way. */
    method GetStructure(generated: Result<string>) returns (reported: Option<string>)
      modifies this
      ensures !isLoading
      ensures generated.Ok? ==> structure == Some(generated.value) && reported == None
      ensures generated.Err? ==> structure == old(structure) && reported == Some(StructureErrorMessage)
    {
      isLoading := true;
      match generated {
        case Ok(s) =>
          structure := Some(s);
          reported := None;
        case Err(_) =>
          reported := Some(StructureErrorMessage);
      }
      isLoading := false;
    }

    /** `handleApprove`: forwards exactly the stored outline, and nothing while
        there is none (or it is `''`, which is falsy). */
    method HandleApprove() returns (approved: Option<string>)
      ensures approved.Some? <==> Truthy(structure)
      ensures approved.Some? ==> approved == structure
    {
      if structure.Some? && structure.value != "" {
        approved := structure;
      } else {
        approved := None;
      }
    }
  }
}
