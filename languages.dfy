/** The per-language choices of a dictionary: the n-gram order of the approximate index, its
    similarity measure, the scoring function, and the analyzer names the normaliser uses. A
    dictionary's `language` is nil or a code such as "kor" or "jpn". */
module Languages {
  import opened Outcomes
  import opened Similarity
  import Entries

  /** The similarity measures of the approximate index library. */
  datatype Measure = Cosine | Jaccard

  /** `ngram_order` */
  function NgramOrder(language: Option<string>): nat {
    if language == Some("kor") then 2 else if language == Some("jpn") then 1 else 3
  }

  /** `simstring_method` */
  function SimstringMethod(language: Option<string>): Measure {
    if language == Some("kor") || language == Some("jpn") then Cosine else Jaccard
  }

  /** `str_sim` */
  function StrSim(language: Option<string>): Scorer {
    if language == Some("kor") then Jaccard2gram else if language == Some("jpn") then Jp else Jaccard3gram
  }

  /** `language_suffix`: "" for a missing or blank language. */
  function LanguageSuffix(language: Option<string>): string {
    if language.None? then ""
    else if language.value == "kor" then "_ko"
    else if language.value == "jpn" then "_ja"
    else ""
  }

  /** `normalizer1` */
  function Normalizer1(language: Option<string>): string {
    "normalizer1" + LanguageSuffix(language)
  }

  /** `normalizer2` */
  function Normalizer2(language: Option<string>): string {
    "normalizer2" + LanguageSuffix(language)
  }

  /** The four per-language choices agree with one another: the trigram index, the Jaccard
      measure, the trigram score and the default analyzers go together, Korean pairs an order-2
      index with the bigram score, and Japanese an order-1 index with the cosine blend. */
  lemma ProfilesAgree(language: Option<string>)
    ensures NgramOrder(language) == 3 <==> SimstringMethod(language) == Jaccard
    ensures NgramOrder(language) == 3 <==> StrSim(language) == Jaccard3gram
    ensures NgramOrder(language) == 3 <==> LanguageSuffix(language) == ""
    ensures NgramOrder(language) == 2 <==> StrSim(language) == Jaccard2gram
    ensures NgramOrder(language) == 1 <==> StrSim(language) == Jp
  {
  }

  /** Both normaliser names always name an analyzer that the entry index declares, and the two
      differ only in their level digit. */
  lemma NormalizersDeclared(language: Option<string>)
    ensures Normalizer1(language) in Entries.Analyzers
    ensures Normalizer2(language) in Entries.Analyzers
    ensures Normalizer1(language) != Normalizer2(language)
    ensures Normalizer1(language)[11..] == Normalizer2(language)[11..]
  {
    var sfx := LanguageSuffix(language);
    if sfx == "" {
      assert Normalizer1(language) == "normalizer1" && Normalizer2(language) == "normalizer2";
    } else if sfx == "_ko" {
      assert Normalizer1(language) == "normalizer1_ko" && Normalizer2(language) == "normalizer2_ko";
    } else {
      assert Normalizer1(language) == "normalizer1_ja" && Normalizer2(language) == "normalizer2_ja";
    }
    assert Normalizer1(language)[10] != Normalizer2(language)[10];
  }
}
