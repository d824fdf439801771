/** constants.ts: the ordered catalog of article sections the assistant walks
    through, and the empty article. */
module Catalog {
  import opened Strings

  /** `ArticleSectionKey`: one key per section of the target article. */
  datatype SectionKey =
    | Problem | Hypothesis | Importance | TheoreticalFramework | Methodology
    | Literature | Results | Analysis | Conclusion | FutureResearch | References

  /** `GuidedQuestion`: a section's key, the question that opens it and its
      numbered display title. */
  datatype GuidedQuestion = GuidedQuestion(key: SectionKey, question: string, title: string)

  /** `Article`: the text of each section. The source's record type is total;
      a key missing from the map reads as `''` (see `TextOf`). */
  type Article = map<SectionKey, string>

  /** `GUIDED_QUESTIONS`. Each title is written as its number and its name
      concatenated; the string is the same, and the short numeral literal is
      what lets `TitlesNumbered` read each title's prefix. */
  const GuidedQuestions: seq<GuidedQuestion> := [
    GuidedQuestion(Problem,
      "Para empezar, ¿cuál es el problema de investigación que abordas?",
      "1. " + "Planteamiento del Problema"),
    GuidedQuestion(Hypothesis,
      "Excelente. Ahora, ¿cuál es tu hipótesis principal?",
      "2. " + "Hipótesis"),
    GuidedQuestion(Importance,
      "Entendido. ¿Por qué es importante investigar este problema?",
      "3. " + "Importancia y Justificación"),
    GuidedQuestion(TheoreticalFramework,
      "Perfecto. Ahora, ¿cuál es el marco teórico que sustenta tu investigación?",
      "4. " + "Marco Teórico"),
    GuidedQuestion(Methodology,
      "Muy bien. ¿Qué método o metodología vas a seguir en tu investigación?",
      "5. " + "Metodología"),
    GuidedQuestion(Literature,
      "Continuemos. ¿Qué dice la literatura existente sobre este tema?",
      "6. " + "Revisión de la Literatura"),
    GuidedQuestion(Results,
      "Interesante. ¿Qué resultados esperas obtener con tu investigación?",
      "7. " + "Resultados Esperados"),
    GuidedQuestion(Analysis,
      "Casi terminamos. ¿Cómo planeas analizar y discutir los resultados?",
      "8. " + "Análisis y Discusión"),
    GuidedQuestion(Conclusion,
      "Finalmente, ¿cuáles serían las conclusiones preliminares o el impacto esperado?",
      "9. " + "Conclusiones"),
    GuidedQuestion(FutureResearch,
      "¡Excelente! Ahora, pensemos a futuro. ¿Qué futuras líneas de investigación se desprenden de tu trabajo?",
      "10. " + "Futuras Líneas de Investigación"),
    GuidedQuestion(References,
      "Basado en nuestro trabajo, generaré una lista de referencias para ti. No necesitas escribir nada aquí.",
      "11. " + "Referencias")
  ]

  /** `INITIAL_ARTICLE`. */
  const InitialArticle: Article := map[
    Problem := "", Hypothesis := "", Importance := "", TheoreticalFramework := "",
    Methodology := "", Literature := "", Results := "", Analysis := "",
    Conclusion := "", FutureResearch := "", References := ""
  ]

  /** `article[key]`, with a missing key read as the empty string. */
  function TextOf(article: Article, key: SectionKey): string
  {
    if key in article then article[key] else ""
  }

  /** The keys of a list of catalog entries. */
  function Keys(qs: seq<GuidedQuestion>): set<SectionKey>
  {
    set i | 0 <= i < |qs| :: qs[i].key
  }

  /** The number a string of decimal digits denotes, read left to right. */
  function DigitsValue(s: string): int
  {
    if s == [] then 0 else DigitsValue(s[..|s| - 1]) * 10 + (s[|s| - 1] as int - '0' as int)
  }

  /** Decimal numeral of a natural number, as written in the titles. */
  function Decimal(n: nat): (r: string)
    ensures |r| >= 1
    ensures forall i :: 0 <= i < |r| ==> '0' <= r[i] <= '9'
  {
    var d := ((n % 10) + 48) as char;
    if n < 10 then [d] else Decimal(n / 10) + [d]
  }

  /** The numeral is the right one: it has no leading zero and its digits
      denote `n`. */
  lemma {:induction false} DecimalDenotes(n: nat)
    ensures n >= 10 ==> Decimal(n)[0] != '0'
    ensures DigitsValue(Decimal(n)) == n
    decreases n
  {
    if n >= 10 {
      var q := Decimal(n / 10);
      var d := ((n % 10) + 48) as char;
      DecimalDenotes(n / 10);
      assert Decimal(n) == q + [d];
      assert (q + [d])[..|q|] == q;
      if n / 10 < 10 {
        assert q == [((n / 10) + 48) as char];
      }
    }
  }

  /** The catalog has eleven sections and ends with the generated references. */
  lemma CatalogShape()
    ensures |GuidedQuestions| == 11
    ensures GuidedQuestions[|GuidedQuestions| - 1].key == References
    ensures forall i :: 0 <= i < |GuidedQuestions| - 1 ==> GuidedQuestions[i].key != References
  {
  }

  /** No key appears twice, and every key appears: the catalog is an ordering
      of all the sections. */
  lemma CatalogKeysDistinct()
    ensures forall i, j :: 0 <= i < j < |GuidedQuestions| ==> GuidedQuestions[i].key != GuidedQuestions[j].key
    ensures forall k: SectionKey :: k in Keys(GuidedQuestions)
  {
    forall k: SectionKey ensures k in Keys(GuidedQuestions) {
      var i := match k
        case Problem => 0 case Hypothesis => 1 case Importance => 2
        case TheoreticalFramework => 3 case Methodology => 4 case Literature => 5
        case Results => 6 case Analysis => 7 case Conclusion => 8
        case FutureResearch => 9 case References => 10;
      assert GuidedQuestions[i].key == k;
    }
  }

  /** Entry i (counting from 1) has a title that starts with "i. ": titles are
      numbered in catalog order. */
  lemma TitlesNumbered()
    ensures forall i :: 0 <= i < |GuidedQuestions| ==>
      StartsWith(GuidedQuestions[i].title, Decimal(i + 1) + ". ")
  {
    forall i | 0 <= i < |GuidedQuestions|
      ensures StartsWith(GuidedQuestions[i].title, Decimal(i + 1) + ". ")
    {
      var title := GuidedQuestions[i].title;
      if i < 9 {
        DecimalDigit(i + 1);
        assert title[..3] == [((i + 1) + 48) as char, '.', ' '];
      } else {
        DecimalTeen(i + 1);
        assert title[..4] == ['1', ((i + 1 - 10) + 48) as char, '.', ' '];
      }
    }
  }

  /** A numeral of one digit. */
  lemma DecimalDigit(n: nat)
    requires 1 <= n <= 9
    ensures Decimal(n) + ". " == [(n + 48) as char, '.', ' ']
  {
  }

  /** A numeral from 10 to 19. */
  lemma DecimalTeen(n: nat)
    requires 10 <= n <= 19
    ensures Decimal(n) + ". " == ['1', (n - 10 + 48) as char, '.', ' ']
  {
    assert Decimal(n / 10) == ['1'];
  }

  /** The empty article has exactly the catalog's keys, each mapped to `''`. */
  lemma InitialArticleEmpty()
    ensures InitialArticle.Keys == Keys(GuidedQuestions)
    ensures forall k :: k in InitialArticle ==> InitialArticle[k] == ""
    ensures forall k :: TextOf(InitialArticle, k) == ""
  {
    CatalogKeysDistinct();
  }
}
