/** services/fileService.ts: the pure parts of the file helpers (output file
    names, the paragraph split of the DOCX export) and the page loop of
    `parsePdf`, over pages already reduced to their text items. */
module FileService {
  import opened Types
  import opened Strings

  /** `i` is where `/\.[^/.]+$/` matches `s`: a dot followed by a non-empty
      tail that runs to the end and holds neither `/` nor `.`. */
  predicate IsExtensionAt(s: string, i: int)
  {
    0 <= i < |s| - 1 && s[i] == '.' && forall k :: i < k < |s| ==> s[k] != '/' && s[k] != '.'
  }

  /** The pattern matches in at most one place, because its tail holds no dot. */
  lemma ExtensionUnique(s: string, i: int, j: int)
    requires IsExtensionAt(s, i) && IsExtensionAt(s, j)
    ensures i == j
  {
  }

  /** Scans `s[..j]` backwards for the match, knowing `s[j..]` holds neither
      `/` nor `.`. */
  function FindExtension(s: string, j: nat): (r: Option<nat>)
    requires j <= |s|
    requires forall k :: j <= k < |s| ==> s[k] != '/' && s[k] != '.'
    ensures r.Some? ==> IsExtensionAt(s, r.value)
    ensures r.None? ==> forall i :: !IsExtensionAt(s, i)
    decreases j
  {
    if j == 0 then None
    else if s[j - 1] == '.' then
      if j < |s| then Some(j - 1)
      else
        assert forall i :: 0 <= i < j - 1 ==> !IsExtensionAt(s, i) by {
          forall i | 0 <= i < j - 1 ensures !IsExtensionAt(s, i) {
            assert s[j - 1] == '.';
          }
        }
        None
    else if s[j - 1] == '/' then
      assert forall i :: 0 <= i < j - 1 ==> !IsExtensionAt(s, i) by {
        forall i | 0 <= i < j - 1 ensures !IsExtensionAt(s, i) {
          assert s[j - 1] == '/';
        }
      }
      None
    else FindExtension(s, j - 1)
  }

  /** `fileName.replace(/\.[^/.]+$/, "")`: the name without its final
      extension, or the name unchanged when it has none. */
  function StripExtension(s: string): (r: string)
    ensures forall i :: IsExtensionAt(s, i) ==> r == s[..i]
    ensures (forall i :: !IsExtensionAt(s, i)) ==> r == s
  {
    match FindExtension(s, |s|)
    case Some(i) =>
      assert forall j :: IsExtensionAt(s, j) ==> j == i by {
        forall j | IsExtensionAt(s, j) ensures j == i {
          ExtensionUnique(s, i, j);
        }
      }
      s[..i]
    case None => s
  }

  /** The stem is always a prefix, and what is removed is either nothing or a
      dot and a non-empty tail free of `/` and `.`. */
  lemma StripExtensionRemovesSuffix(s: string)
    ensures StartsWith(s, StripExtension(s))
    ensures StripExtension(s) == s
         || (s[|StripExtension(s)|] == '.' && |StripExtension(s)| < |s| - 1
             && forall k :: |StripExtension(s)| < k < |s| ==> s[k] != '/' && s[k] != '.')
  {
    var r := FindExtension(s, |s|);
    if r.Some? {
      assert IsExtensionAt(s, r.value);
    }
  }

  /** Only the last extension goes: `a.tar.gz` becomes `a.tar`. */
  lemma StripsOnlyLastExtension()
    ensures StripExtension("a.tar.gz") == "a.tar"
  {
    assert IsExtensionAt("a.tar.gz", 5);
    assert "a.tar.gz"[..5] == "a.tar";
  }

  /** A dot with nothing after it, or a dot before a `/`, is no extension. */
  lemma NoExtensionKept()
    ensures StripExtension("a.") == "a."
    ensures StripExtension("x.y/z") == "x.y/z"
  {
    forall i ensures !IsExtensionAt("a.", i) {
      if 0 <= i < 1 {
        assert "a."[i] != '.';
      }
    }
    forall i ensures !IsExtensionAt("x.y/z", i) {
      if 0 <= i < 4 {
        if i != 1 {
          assert "x.y/z"[i] != '.';
        } else {
          assert "x.y/z"[3] == '/';
        }
      }
    }
  }

  /** A name that is all extension, like `.bashrc`, leaves an empty stem. */
  lemma DotFileStemEmpty()
    ensures StripExtension(".bashrc") == ""
  {
    assert IsExtensionAt(".bashrc", 0);
  }

  const DocxSuffix: string := "_mejorado.docx"
  const PdfSuffix: string := "_mejorado.pdf"

  /** The name `exportToDocx` saves under. */
  function DocxFileName(fileName: string): string
  {
    StripExtension(fileName) + DocxSuffix
  }

  /** The name `exportToPdf` saves under. */
  function PdfFileName(fileName: string): string
  {
    StripExtension(fileName) + PdfSuffix
  }

  /** Both exports keep the stem and differ only in the suffix; a name with
      no extension is kept whole in front of the suffix. */
  lemma OutputNames(fileName: string)
    ensures StartsWith(DocxFileName(fileName), StripExtension(fileName))
    ensures StartsWith(PdfFileName(fileName), StripExtension(fileName))
    ensures DocxFileName(fileName)[|StripExtension(fileName)|..] == "_mejorado.docx"
    ensures PdfFileName(fileName)[|StripExtension(fileName)|..] == "_mejorado.pdf"
    ensures (forall i :: !IsExtensionAt(fileName, i)) ==> DocxFileName(fileName) == fileName + "_mejorado.docx"
    ensures (forall i :: !IsExtensionAt(fileName, i)) ==> PdfFileName(fileName) == fileName + "_mejorado.pdf"
  {
    var stem := StripExtension(fileName);
    assert (stem + DocxSuffix)[..|stem|] == stem;
    assert (stem + PdfSuffix)[..|stem|] == stem;
  }

  /** The uploaded `report.pdf` is exported as `report_mejorado.docx`. */
  lemma ExportNameExample()
    ensures DocxFileName("report.pdf") == "report_mejorado.docx"
  {
    assert IsExtensionAt("report.pdf", 6);
    assert "report.pdf"[..6] == "report";
  }

  /** `text.split('\n')`: one DOCX paragraph per line, empty lines included,
      in order. */
  function DocxParagraphs(text: string): (r: seq<string>)
    ensures |r| == multiset(text)['\n'] + 1
    ensures forall i :: 0 <= i < |r| ==> '\n' !in r[i]
    ensures Join(r, "\n") == text
  {
    SplitSpec(text, '\n');
    Split(text, '\n')
  }

  /** Empty lines are kept: a blank line between two lines is a paragraph
      of its own. */
  lemma EmptyLinesKept()
    ensures DocxParagraphs("a\n\nb") == ["a", "", "b"]
  {
    var parts := ["a", "", "b"];
    assert Join(parts, "\n") == "a\n\nb" by {
      assert parts[1..] == ["", "b"];
      assert parts[1..][1..] == ["b"];
    }
    SplitJoin(parts, '\n');
  }

  /** Lines already free of line breaks come back as the same paragraphs. */
  lemma ParagraphsOfJoinedLines(lines: seq<string>)
    requires |lines| >= 1
    requires forall i :: 0 <= i < |lines| ==> '\n' !in lines[i]
    ensures DocxParagraphs(Join(lines, "\n")) == lines
  {
    SplitJoin(lines, '\n');
  }

  /** The text of one page: its items joined by single spaces, then a line break. */
  function PageText(items: seq<string>): string
  {
    Join(items, " ") + "\n"
  }

  /** The text `parsePdf` returns for pages 1..n, page by page in order. */
  function PdfText(pages: seq<seq<string>>): string
  {
    if pages == [] then "" else PageText(pages[0]) + PdfText(pages[1..])
  }

  /** The joined items of every page. */
  function PageLines(pages: seq<seq<string>>): (r: seq<string>)
    ensures |r| == |pages|
  {
    seq(|pages|, i requires 0 <= i < |pages| => Join(pages[i], " "))
  }

  /** Appending a page appends its text. */
  lemma {:induction false} PdfTextSnoc(pages: seq<seq<string>>, page: seq<string>)
    ensures PdfText(pages + [page]) == PdfText(pages) + PageText(page)
    decreases |pages|
  {
    if pages == [] {
      assert [] + [page] == [page];
      assert [page][1..] == [];
    } else {
      assert (pages + [page])[1..] == pages[1..] + [page];
      PdfTextSnoc(pages[1..], page);
      AppendAssoc(PageText(pages[0]), PdfText(pages[1..]), PageText(page));
    }
  }

  /** `parsePdf`'s loop over pages 1..numPages, with `getPage(i)` resolved to
      the text items of page `i`. */
  method ParsePdf(pages: seq<seq<string>>) returns (fullText: string)
    ensures fullText == PdfText(pages)
  {
    fullText := "";
    for i := 1 to |pages| + 1
      invariant fullText == PdfText(pages[..i - 1])
    {
      assert pages[..i] == pages[..i - 1] + [pages[i - 1]];
      PdfTextSnoc(pages[..i - 1], pages[i - 1]);
      fullText := fullText + PageText(pages[i - 1]);
    }
    assert pages[..|pages|] == pages;
  }

  /** No item holds a line break. */
  predicate NoBreakInItems(pages: seq<seq<string>>)
  {
    forall p, k :: 0 <= p < |pages| && 0 <= k < |pages[p]| ==> '\n' !in pages[p][k]
  }

  lemma NoBreakInRest(pages: seq<seq<string>>)
    requires pages != [] && NoBreakInItems(pages)
    ensures NoBreakInItems(pages[1..])
    ensures '\n' !in Join(pages[0], " ")
  {
    JoinFree(pages[0], " ", '\n');
    forall p, k | 0 <= p < |pages[1..]| && 0 <= k < |pages[1..][p]| ensures '\n' !in pages[1..][p][k] {
      assert pages[1..][p] == pages[p + 1];
    }
  }

  lemma PdfTextCons(pages: seq<seq<string>>)
    requires pages != []
    ensures PdfText(pages) == Join(pages[0], " ") + ['\n'] + PdfText(pages[1..])
         && PageLines(pages) == [Join(pages[0], " ")] + PageLines(pages[1..])
  {
    AppendAssoc(Join(pages[0], " "), "\n", PdfText(pages[1..]));
  }

  /** When no item holds a line break, the text has one line per page, in
      page order, and ends with a line break (hence the final empty piece). */
  lemma {:induction false} PdfTextLines(pages: seq<seq<string>>)
    requires NoBreakInItems(pages)
    ensures Split(PdfText(pages), '\n') == PageLines(pages) + [""]
  {
    if pages != [] {
      var line := Join(pages[0], " ");
      var rest := PdfText(pages[1..]);
      NoBreakInRest(pages);
      PdfTextLines(pages[1..]);
      PdfTextCons(pages);
      SplitAfter(line, rest, '\n');
      assert [line] + (PageLines(pages[1..]) + [""]) == ([line] + PageLines(pages[1..])) + [""];
    } else {
      assert PdfText(pages) == "";
    }
  }

  /** ... so the text holds exactly one line break per page. */
  lemma PdfTextBreaks(pages: seq<seq<string>>)
    requires NoBreakInItems(pages)
    ensures multiset(PdfText(pages))['\n'] == |pages|
  {
    PdfTextLines(pages);
    SplitSpec(PdfText(pages), '\n');
  }
}
