/** String similarity of entry.rb: circular character n-grams, set-based Jaccard similarity and the
    weighted scores that combine the surface label, the typographic form (norm1) and the
    morphosyntactic form (norm2). Ratios are exact `real`s instead of Ruby floats. */
module Similarity {

  /** `get_unigrams`: the characters of `s`, each as a one-character string. */
  function Unigrams(s: string): (r: seq<string>)
    ensures |r| == |s|
    ensures forall i :: 0 <= i < |s| ==> r[i] == [s[i]]
  {
    if s == [] then [] else [[s[0]]] + Unigrams(s[1..])
  }

  /** The character before position `i` when `s` is read as a circle. */
  function Before(s: string, i: nat): char
    requires i < |s|
  {
    if i == 0 then s[|s| - 1] else s[i - 1]
  }

  /** The character after position `i` when `s` is read as a circle. */
  function After(s: string, i: nat): char
    requires i < |s|
  {
    if i + 1 == |s| then s[0] else s[i + 1]
  }

  /** `get_bigrams`: the windows of length 2 of `s + s[0]`. */
  function Bigrams(s: string): (r: seq<string>)
    ensures |r| == |s|
    ensures forall i :: 0 <= i < |s| ==> r[i] == [s[i], After(s, i)]
  {
    if s == [] then []
    else
      var f := s + [s[0]];
      seq(|s|, i requires 0 <= i < |s| => f[i..i + 2])
  }

  /** `get_trigrams`: the windows of length 3 of `s[-1] + s + s[0]`. */
  function Trigrams(s: string): (r: seq<string>)
    ensures |r| == |s|
    ensures forall i :: 0 <= i < |s| ==> r[i] == [Before(s, i), s[i], After(s, i)]
  {
    if s == [] then []
    else
      var f := [s[|s| - 1]] + s + [s[0]];
      seq(|s|, i requires 0 <= i < |s| => f[i..i + 3])
  }

  function Elements(xs: seq<string>): set<string> {
    set x | x in xs
  }

  /** |A * B| <= |A + B|, with equality exactly when A == B. */
  lemma {:induction false} OverlapBound(a: set<string>, b: set<string>)
    ensures |a * b| <= |a + b|
    ensures |a * b| == |a + b| <==> a == b
  {
    assert a + b == (a - b) + (b - a) + a * b;
    assert |(a - b) + (b - a)| == |a - b| + |b - a|;
    assert |a + b| == |a - b| + |b - a| + |a * b|;
    if |a * b| == |a + b| {
      assert |a - b| == 0 && |b - a| == 0;
      assert a - b == {} && b - a == {};
    }
  }

  /** `jaccard_sim`: |set(A) ∩ set(B)| / |set(A) ∪ set(B)|, and 0 when either list is empty. */
  function JaccardSim(xs: seq<string>, ys: seq<string>): (r: real)
    ensures xs == [] || ys == [] ==> r == 0.0
    ensures 0.0 <= r <= 1.0
  {
    if xs == [] || ys == [] then 0.0
    else
      OverlapBound(Elements(xs), Elements(ys));
      assert xs[0] in Elements(xs);
      (|Elements(xs) * Elements(ys)| as real) / (|Elements(xs) + Elements(ys)| as real)
  }

  lemma JaccardSymmetric(xs: seq<string>, ys: seq<string>)
    ensures JaccardSim(xs, ys) == JaccardSim(ys, xs)
  {
    assert Elements(xs) * Elements(ys) == Elements(ys) * Elements(xs);
    assert Elements(xs) + Elements(ys) == Elements(ys) + Elements(xs);
  }

  /** For non-empty lists the similarity is 1 exactly when both have the same element set, and 0
      exactly when they share no element. */
  lemma JaccardExtremes(xs: seq<string>, ys: seq<string>)
    requires xs != [] && ys != []
    ensures JaccardSim(xs, ys) == 1.0 <==> Elements(xs) == Elements(ys)
    ensures JaccardSim(xs, ys) == 0.0 <==> Elements(xs) !! Elements(ys)
  {
    var a, b := Elements(xs), Elements(ys);
    OverlapBound(a, b);
    assert xs[0] in a;
    var u := |a + b| as real;
    assert u > 0.0;
    assert JaccardSim(xs, ys) * u == |a * b| as real;
    if a !! b {
      assert a * b == {};
    }
    if |a * b| == 0 {
      assert a * b == {};
    }
  }

  /** The blend of the three Jaccard values that both n-gram scores share: the mean of the label
      and norm1 values when neither norm2 is given, otherwise weights 1, 1 and 10 over 12. */
  function Blend(jLabel: real, jNorm1: real, jNorm2: real, noNorm2: bool): (r: real)
    requires 0.0 <= jLabel <= 1.0 && 0.0 <= jNorm1 <= 1.0 && 0.0 <= jNorm2 <= 1.0
    ensures 0.0 <= r <= 1.0
    ensures r == 1.0 <==> jLabel == 1.0 && jNorm1 == 1.0 && (noNorm2 || jNorm2 == 1.0)
  {
    if noNorm2 then (jLabel + jNorm1) / 2.0 else (jLabel + jNorm1 + 10.0 * jNorm2) / 12.0
  }

  /** `str_sim_jaccard_3gram` (the default profile). */
  function StrSimJaccard3gram(str1: string, str2: string, s1norm1: string, s2norm1: string,
                              s1norm2: string, s2norm2: string): (r: real)
    ensures 0.0 <= r <= 1.0
  {
    Blend(JaccardSim(Trigrams(str1), Trigrams(str2)), JaccardSim(Trigrams(s1norm1), Trigrams(s2norm1)),
          JaccardSim(Trigrams(s1norm2), Trigrams(s2norm2)), s1norm2 == [] && s2norm2 == [])
  }

  /** `str_sim_jaccard_2gram` (the Korean profile): the same blend over circular bigrams. */
  function StrSimJaccard2gram(str1: string, str2: string, s1norm1: string, s2norm1: string,
                              s1norm2: string, s2norm2: string): (r: real)
    ensures 0.0 <= r <= 1.0
  {
    Blend(JaccardSim(Bigrams(str1), Bigrams(str2)), JaccardSim(Bigrams(s1norm1), Bigrams(s2norm1)),
          JaccardSim(Bigrams(s1norm2), Bigrams(s2norm2)), s1norm2 == [] && s2norm2 == [])
  }

  /** `str_sim_jp` (the Japanese profile) over the two cosine values the similarity gem computes
      (unigram and bigram); the normalised forms are ignored. */
  function StrSimJp(cosine1: real, cosine2: real): (r: real)
    ensures 0.0 <= cosine1 <= 1.0 && 0.0 <= cosine2 <= 1.0 ==> 0.0 <= r <= 1.0
    ensures cosine1 == cosine2 ==> r == cosine1
    ensures cosine1 <= cosine2 ==> cosine1 <= r <= cosine2
    ensures cosine2 <= cosine1 ==> cosine2 <= r <= cosine1
  {
    cosine1 * 0.7 + cosine2 * 0.3
  }

  /** Which of the three similarity functions a dictionary uses. */
  datatype Scorer = Jaccard3gram | Jaccard2gram | Jp

  /** `str_sim.call(...)`; `cosine(a, b, n)` stands for the gem's `String::Similarity.cosine`
      with `ngram: n`. */
  function Score(scorer: Scorer, cosine: (string, string, nat) -> real, str1: string, str2: string,
                 s1norm1: string, s2norm1: string, s1norm2: string, s2norm2: string): real
  {
    match scorer
    case Jaccard3gram => StrSimJaccard3gram(str1, str2, s1norm1, s2norm1, s1norm2, s2norm2)
    case Jaccard2gram => StrSimJaccard2gram(str1, str2, s1norm1, s2norm1, s1norm2, s2norm2)
    case Jp => StrSimJp(cosine(str1, str2, 1), cosine(str1, str2, 2))
  }

  /** The circular n-grams of a non-empty string are never empty, so a non-empty string is fully
      similar to itself. */
  lemma SelfSimilarity(s: string)
    requires s != []
    ensures JaccardSim(Trigrams(s), Trigrams(s)) == 1.0
    ensures JaccardSim(Bigrams(s), Bigrams(s)) == 1.0
  {
    JaccardExtremes(Trigrams(s), Trigrams(s));
    JaccardExtremes(Bigrams(s), Bigrams(s));
  }

  /** Identical query and entry forms score exactly 1 when the label and norm1 are non-empty, and
      less than 1 otherwise; this holds for both n-gram profiles and both branches. */
  lemma IdenticalFormsScoreOne(surface: string, norm1: string, norm2: string)
    ensures StrSimJaccard3gram(surface, surface, norm1, norm1, norm2, norm2) == 1.0 <==> surface != [] && norm1 != []
    ensures StrSimJaccard2gram(surface, surface, norm1, norm1, norm2, norm2) == 1.0 <==> surface != [] && norm1 != []
  {
    if surface != [] { SelfSimilarity(surface); }
    if norm1 != [] { SelfSimilarity(norm1); }
    if norm2 != [] { SelfSimilarity(norm2); }
  }

  /** Both n-gram scores are symmetric in the query and the entry. */
  lemma ScoresSymmetric(str1: string, str2: string, s1norm1: string, s2norm1: string,
                        s1norm2: string, s2norm2: string)
    ensures StrSimJaccard3gram(str1, str2, s1norm1, s2norm1, s1norm2, s2norm2)
         == StrSimJaccard3gram(str2, str1, s2norm1, s1norm1, s2norm2, s1norm2)
    ensures StrSimJaccard2gram(str1, str2, s1norm1, s2norm1, s1norm2, s2norm2)
         == StrSimJaccard2gram(str2, str1, s2norm1, s1norm1, s2norm2, s1norm2)
  {
    JaccardSymmetric(Trigrams(str1), Trigrams(str2));
    JaccardSymmetric(Trigrams(s1norm1), Trigrams(s2norm1));
    JaccardSymmetric(Trigrams(s1norm2), Trigrams(s2norm2));
    JaccardSymmetric(Bigrams(str1), Bigrams(str2));
    JaccardSymmetric(Bigrams(s1norm1), Bigrams(s2norm1));
    JaccardSymmetric(Bigrams(s1norm2), Bigrams(s2norm2));
  }

  /** When exactly one side has a norm2 form, the norm2 term counts 10/12 with a Jaccard value of
      0, so the score can never exceed 1/6 however similar the label and norm1 are. */
  lemma OneSidedNorm2Caps(str1: string, str2: string, s1norm1: string, s2norm1: string,
                          s1norm2: string, s2norm2: string)
    requires (s1norm2 == []) != (s2norm2 == [])
    ensures StrSimJaccard3gram(str1, str2, s1norm1, s2norm1, s1norm2, s2norm2) <= 1.0 / 6.0
    ensures StrSimJaccard2gram(str1, str2, s1norm1, s2norm1, s1norm2, s2norm2) <= 1.0 / 6.0
  {
  }

  /** Strings with no common trigram (hence no common character) in any form score 0. */
  lemma DisjointFormsScoreZero(str1: string, str2: string, s1norm1: string, s2norm1: string,
                               s1norm2: string, s2norm2: string)
    requires Elements(Trigrams(str1)) !! Elements(Trigrams(str2))
    requires Elements(Trigrams(s1norm1)) !! Elements(Trigrams(s2norm1))
    requires Elements(Trigrams(s1norm2)) !! Elements(Trigrams(s2norm2))
    ensures StrSimJaccard3gram(str1, str2, s1norm1, s2norm1, s1norm2, s2norm2) == 0.0
  {
    DisjointJaccardZero(Trigrams(str1), Trigrams(str2));
    DisjointJaccardZero(Trigrams(s1norm1), Trigrams(s2norm1));
    DisjointJaccardZero(Trigrams(s1norm2), Trigrams(s2norm2));
  }

  lemma DisjointJaccardZero(xs: seq<string>, ys: seq<string>)
    requires Elements(xs) !! Elements(ys)
    ensures JaccardSim(xs, ys) == 0.0
  {
    if xs != [] && ys != [] {
      JaccardExtremes(xs, ys);
    }
  }
}
