/** components/EditorPanel.tsx, `handleExport`: the HTML handed to the DOCX
    converter, built section by section in catalog order. */
module EditorPanel {
  import opened Strings
  import opened Catalog

  /** The opening template literal, byte for byte (its line breaks and
      indentation included). */
  const HtmlHead: string :=
    "\n      <!DOCTYPE html>\n      <html>\n      <head>\n        <meta charset=\"UTF-8\">\n"
    + "        <title>Artículo Académico</title>\n      </head>\n      <body>\n    "
  const HtmlTail: string := "</body></html>"

  /** `.filter(p => p.trim() !== '')`: the non-blank lines, in order. */
  function NonBlankLines(lines: seq<string>): seq<string>
  {
    if lines == [] then []
    else (if IsBlank(lines[0]) then [] else [lines[0]]) + NonBlankLines(lines[1..])
  }

  /** The paragraphs of a section's text. */
  function ParagraphsOf(text: string): seq<string>
  {
    NonBlankLines(Split(text, '\n'))
  }

  /** `<h1>${title}</h1>`. */
  function HeadingElement(title: string): string
  {
    "<h1>" + title + "</h1>"
  }

  /** `<p>${p}</p>`: the text goes in verbatim, nothing is escaped. */
  function ParagraphElement(p: string): string
  {
    "<p>" + p + "</p>"
  }

  /** The `<p>` elements for a list of paragraphs, in order. */
  function ParagraphsHtml(paragraphs: seq<string>): string
  {
    if paragraphs == [] then ""
    else ParagraphsHtml(paragraphs[..|paragraphs| - 1]) + ParagraphElement(paragraphs[|paragraphs| - 1])
  }

  /** The block of one catalog entry: nothing for an empty section, otherwise
      its title as `<h1>` followed by its paragraphs. */
  function SectionHtml(section: GuidedQuestion, article: Article): string
  {
    var text := TextOf(article, section.key);
    if text == "" then "" else HeadingElement(section.title) + ParagraphsHtml(ParagraphsOf(text))
  }

  /** The blocks of a list of catalog entries, in order. */
  function SectionsHtml(sections: seq<GuidedQuestion>, article: Article): string
  {
    if sections == [] then ""
    else SectionsHtml(sections[..|sections| - 1], article) + SectionHtml(sections[|sections| - 1], article)
  }

  /** The whole exported page. */
  function ExportHtml(article: Article): string
  {
    HtmlHead + SectionsHtml(GuidedQuestions, article) + HtmlTail
  }

  /** `handleExport` up to the converter call: `contentHtml` grown with `+=`
      inside the loop over the catalog and the loop over each section's
      paragraphs. */
  method BuildExportHtml(article: Article) returns (contentHtml: string)
    ensures contentHtml == ExportHtml(article)
  {
    contentHtml := BuildPage(GuidedQuestions, article);
  }

  /** The head, the loop over `sections`, then the closing tags. */
  method BuildPage(sections: seq<GuidedQuestion>, article: Article) returns (contentHtml: string)
    ensures contentHtml == HtmlHead + SectionsHtml(sections, article) + HtmlTail
  {
    contentHtml := HtmlHead;
    for i := 0 to |sections|
      invariant contentHtml == HtmlHead + SectionsHtml(sections[..i], article)
    {
      contentHtml := AppendSection(contentHtml, sections[i], article);
      SectionsHtmlStep(sections, i, article);
      AppendAssoc(HtmlHead, SectionsHtml(sections[..i], article), SectionHtml(sections[i], article));
    }
    assert sections[..|sections|] == sections;
    contentHtml := contentHtml + HtmlTail;
  }

  /** One pass of the outer loop: the heading, then the inner loop over the
      section's paragraphs, appended to what was built so far. */
  method AppendSection(prefix: string, section: GuidedQuestion, article: Article) returns (contentHtml: string)
    ensures contentHtml == prefix + SectionHtml(section, article)
  {
    contentHtml := prefix;
    var text := TextOf(article, section.key);
    if text != "" {
      contentHtml := contentHtml + HeadingElement(section.title);
      ghost var heading := contentHtml;
      var paragraphs := ParagraphsOf(text);
      for j := 0 to |paragraphs|
        invariant contentHtml == heading + ParagraphsHtml(paragraphs[..j])
      {
        ParagraphsHtmlStep(paragraphs, j);
        AppendAssoc(heading, ParagraphsHtml(paragraphs[..j]), ParagraphElement(paragraphs[j]));
        contentHtml := contentHtml + ParagraphElement(paragraphs[j]);
      }
      assert paragraphs[..|paragraphs|] == paragraphs;
      AppendAssoc(prefix, HeadingElement(section.title), ParagraphsHtml(paragraphs));
    }
  }

  lemma ParagraphsHtmlStep(paragraphs: seq<string>, j: nat)
    requires j < |paragraphs|
    ensures ParagraphsHtml(paragraphs[..j + 1]) == ParagraphsHtml(paragraphs[..j]) + ParagraphElement(paragraphs[j])
  {
    assert paragraphs[..j + 1][..j] == paragraphs[..j];
  }

  lemma SectionsHtmlStep(sections: seq<GuidedQuestion>, i: nat, article: Article)
    requires i < |sections|
    ensures SectionsHtml(sections[..i + 1], article) == SectionsHtml(sections[..i], article) + SectionHtml(sections[i], article)
  {
    assert sections[..i + 1][..i] == sections[..i];
  }

  /** Blocks appear in the order of the entries: the blocks of two lists
      back to back are the blocks of the first followed by those of the second. */
  lemma {:induction false} SectionsHtmlAppend(first: seq<GuidedQuestion>, second: seq<GuidedQuestion>, article: Article)
    ensures SectionsHtml(first + second, article) == SectionsHtml(first, article) + SectionsHtml(second, article)
    decreases |second|
  {
    if second == [] {
      assert first + second == first;
    } else {
      var init := second[..|second| - 1];
      var last := second[|second| - 1];
      assert (first + second)[..|first + second| - 1] == first + init;
      assert (first + second)[|first + second| - 1] == last;
      assert SectionsHtml(first + second, article) == SectionsHtml(first + init, article) + SectionHtml(last, article);
      SectionsHtmlAppend(first, init, article);
      AppendAssoc(SectionsHtml(first, article), SectionsHtml(init, article), SectionHtml(last, article));
    }
  }

  /** A list of entries gives the first entry's block, then the blocks of the rest. */
  lemma SectionsHtmlFirst(sections: seq<GuidedQuestion>, article: Article)
    requires sections != []
    ensures SectionsHtml(sections, article) == SectionHtml(sections[0], article) + SectionsHtml(sections[1..], article)
  {
    SectionsHtmlAppend([sections[0]], sections[1..], article);
    assert [sections[0]] + sections[1..] == sections;
    assert SectionsHtml([sections[0]], article) == SectionHtml(sections[0], article);
  }

  /** The exported page is the head, then the first section's block, then
      the blocks of the rest of the catalog, then the tail. */
  lemma ExportStartsWithFirstSection(article: Article)
    ensures ExportHtml(article)
         == HtmlHead + (SectionHtml(GuidedQuestions[0], article) + SectionsHtml(GuidedQuestions[1..], article)) + HtmlTail
  {
    SectionsHtmlFirst(GuidedQuestions, article);
  }

  /** Every paragraph is one of the lines, and none is blank. */
  lemma {:induction false} NonBlankLinesSound(lines: seq<string>)
    ensures forall p :: p in NonBlankLines(lines) ==> p in lines && !IsBlank(p)
  {
    if lines != [] {
      NonBlankLinesSound(lines[1..]);
      var head := if IsBlank(lines[0]) then [] else [lines[0]];
      var tail := NonBlankLines(lines[1..]);
      assert NonBlankLines(lines) == head + tail;
      forall p | p in head + tail ensures p in lines && !IsBlank(p) {
        if p !in head {
          assert p in tail;
          assert p in lines[1..];
        }
      }
    }
  }

  /** Every non-blank line is a paragraph. */
  lemma {:induction false} NonBlankLinesComplete(lines: seq<string>)
    ensures forall i :: 0 <= i < |lines| && !IsBlank(lines[i]) ==> lines[i] in NonBlankLines(lines)
  {
    if lines != [] {
      NonBlankLinesComplete(lines[1..]);
      forall i | 0 <= i < |lines| && !IsBlank(lines[i]) ensures lines[i] in NonBlankLines(lines) {
        if i > 0 {
          assert lines[1..][i - 1] == lines[i];
        }
      }
    }
  }

  /** With no blank line, every line is a paragraph. */
  lemma {:induction false} NonBlankLinesAllKept(lines: seq<string>)
    requires forall i :: 0 <= i < |lines| ==> !IsBlank(lines[i])
    ensures NonBlankLines(lines) == lines
  {
    if lines != [] {
      assert forall i :: 0 <= i < |lines[1..]| ==> lines[1..][i] == lines[i + 1];
      NonBlankLinesAllKept(lines[1..]);
      assert lines == [lines[0]] + lines[1..];
    }
  }

  /** With only blank lines, there is no paragraph. */
  lemma {:induction false} NonBlankLinesNoneKept(lines: seq<string>)
    requires forall i :: 0 <= i < |lines| ==> IsBlank(lines[i])
    ensures NonBlankLines(lines) == []
  {
    if lines != [] {
      assert forall i :: 0 <= i < |lines[1..]| ==> lines[1..][i] == lines[i + 1];
      NonBlankLinesNoneKept(lines[1..]);
    }
  }

  /** An empty section contributes nothing to the page. */
  lemma EmptySectionOmitted(section: GuidedQuestion, article: Article)
    requires TextOf(article, section.key) == ""
    ensures SectionHtml(section, article) == ""
  {
  }

  /** A whitespace-only section still gets its heading, but no paragraph. */
  lemma BlankSectionOnlyHeading(section: GuidedQuestion, article: Article)
    requires TextOf(article, section.key) != "" && IsBlank(TextOf(article, section.key))
    ensures SectionHtml(section, article) == HeadingElement(section.title)
  {
    var text := TextOf(article, section.key);
    var lines := Split(text, '\n');
    BlankIffAllWhitespace(text);
    forall i | 0 <= i < |lines| ensures IsBlank(lines[i]) {
      forall j | 0 <= j < |lines[i]| ensures IsWhitespace(lines[i][j]) {
        SplitPiecesFromSource(text, '\n', i, j);
      }
      BlankIffAllWhitespace(lines[i]);
    }
    NonBlankLinesNoneKept(lines);
  }

  /** A one-line section becomes its heading and a single paragraph holding
      the line verbatim: nothing is escaped. */
  lemma SingleLineSection(section: GuidedQuestion, article: Article)
    requires !IsBlank(TextOf(article, section.key)) && '\n' !in TextOf(article, section.key)
    ensures SectionHtml(section, article)
         == HeadingElement(section.title) + ParagraphElement(TextOf(article, section.key))
  {
    var text := TextOf(article, section.key);
    OneLineParagraph(text);
    assert text != "" by {
      assert Trim("") == "";
    }
    assert ParagraphsHtml([text]) == ParagraphElement(text);
  }

  /** A non-blank text without line breaks is a single paragraph. */
  lemma OneLineParagraph(text: string)
    requires !IsBlank(text) && '\n' !in text
    ensures ParagraphsOf(text) == [text]
  {
    SplitFree(text, '\n');
    assert Split(text, '\n') == [text];
    assert NonBlankLines([text]) == [text];
  }

  /** Sections whose text is empty produce no blocks at all. */
  lemma {:induction false} EmptySectionsOmitted(sections: seq<GuidedQuestion>, article: Article)
    requires forall i :: 0 <= i < |sections| ==> TextOf(article, sections[i].key) == ""
    ensures SectionsHtml(sections, article) == ""
    decreases |sections|
  {
    if sections != [] {
      EmptySectionsOmitted(sections[..|sections| - 1], article);
    }
  }

  /** Exporting the empty article gives the bare page. */
  lemma ExportInitialArticle()
    ensures ExportHtml(InitialArticle) == HtmlHead + HtmlTail
  {
    InitialArticleEmpty();
    EmptySectionsOmitted(GuidedQuestions, InitialArticle);
    assert HtmlHead + "" == HtmlHead;
  }
}
