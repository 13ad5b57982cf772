/** `update_stop_words`: the stop-word lists a dictionary keeps are the built-in lists minus the
    words that occur (in the relevant position) in one of its lower-cased labels. */
module StopWords {
  import opened RubyText
  import opened Seqs

  /** `NO_TERM_WORDS`: words no term consists of. "much" and "many" occur twice, and "I" is the only
      entry with an upper-case letter. */
  const NoTermWords: seq<string> :=
    ["are", "am", "be", "was", "were", "do", "did", "does", "had", "has", "have", "what", "which",
     "when", "where", "who", "how", "if", "whether", "an", "the", "this", "that", "these", "those",
     "is", "it", "its", "we", "our", "us", "they", "their", "them", "there", "then", "I", "he",
     "she", "my", "me", "his", "him", "her", "will", "shall", "may", "can", "cannot", "would",
     "should", "might", "could", "ought", "each", "every", "many", "much", "very", "more", "most",
     "than", "such", "several", "some", "both", "even", "and", "or", "but", "neither", "nor",
     "not", "never", "also", "much", "as", "well", "many", "e.g"]

  /** `NO_BEGIN_WORDS`: words no term begins with. */
  const NoBeginWords: seq<string> :=
    ["a", "am", "an", "and", "are", "as", "about", "above", "across", "after", "against", "along",
     "amid", "among", "around", "at", "been", "before", "behind", "below", "beneath", "beside",
     "besides", "between", "beyond", "by", "concerning", "considering", "despite", "do", "except",
     "excepting", "excluding", "for", "from", "had", "has", "have", "i", "in", "inside", "into",
     "if", "is", "it", "like", "my", "me", "of", "off", "on", "onto", "regarding", "since",
     "through", "to", "toward", "towards", "under", "underneath", "unlike", "until", "upon",
     "versus", "via", "with", "within", "without", "during", "what", "which", "when", "where",
     "who", "how", "whether"]

  /** `NO_END_WORDS`: the same words, which no term ends with. */
  const NoEndWords: seq<string> := NoBeginWords

  /** `label.downcase.split` */
  function LabelWords(term: string): seq<string> {
    Words(Downcase(term))
  }

  /** Which words of a label a list is matched against. */
  datatype Place = AnyWord | FirstWord | LastWord

  /** `ml`, `ml[0, 1]` or `ml[-1, 1]`. */
  function Pick(place: Place, ws: seq<string>): (r: seq<string>)
    ensures forall w :: w in r ==> w in ws
  {
    match place
    case AnyWord => ws
    case FirstWord => if ws == [] then [] else [ws[0]]
    case LastWord => if ws == [] then [] else [ws[|ws| - 1]]
  }

  /** Ruby's `a & b`: the distinct elements of `a` that are in `b`, in the order of `a`. */
  function Intersect(a: seq<string>, b: seq<string>): (r: seq<string>)
    ensures forall w :: w in r <==> w in a && w in b
  {
    Uniq(Filter(a, w => w in b))
  }

  /** `count_no_*_words`: the words of the list found in the given place of some label. */
  function FoundWords(labels: seq<string>, list: seq<string>, place: Place): seq<string> {
    Uniq(Flatten(Map(labels, term => Matches(term, list, place))))
  }

  /** Ruby's `a - b`: the elements of `a` that are not in `b`, in order and with repeats. */
  function Minus(a: seq<string>, b: seq<string>): seq<string> {
    if a == [] then [] else (if a[0] in b then [] else [a[0]]) + Minus(a[1..], b)
  }

  lemma {:induction false} MinusSpec(a: seq<string>, b: seq<string>, w: string)
    ensures w in Minus(a, b) <==> w in a && w !in b
    ensures multiset(Minus(a, b))[w] == if w in b then 0 else multiset(a)[w]
  {
    if a != [] {
      MinusSpec(a[1..], b, w);
      assert a == [a[0]] + a[1..];
    }
  }

  /** `NO_*_WORDS - count_no_*_words` */
  function RemainingWords(list: seq<string>, labels: seq<string>, place: Place): seq<string> {
    Minus(list, FoundWords(labels, list, place))
  }

  /** The three lists a dictionary stores. */
  datatype StopLists = StopLists(noTermWords: seq<string>, noBeginWords: seq<string>, noEndWords: seq<string>)

  /** The built-in lists. */
  function BuiltIn(): StopLists {
    StopLists(NoTermWords, NoBeginWords, NoEndWords)
  }

  /** What `update_stop_words` stores for the given labels. */
  function DerivedLists(labels: seq<string>): StopLists {
    StopLists(RemainingWords(NoTermWords, labels, AnyWord), RemainingWords(NoBeginWords, labels, FirstWord),
              RemainingWords(NoEndWords, labels, LastWord))
  }

  /** The words of one label matched against a list. */
  function Matches(term: string, list: seq<string>, place: Place): seq<string> {
    Intersect(Pick(place, LabelWords(term)), list)
  }

  /** A word is found exactly when it is in the list and in the given place of some label. */
  lemma FoundWordsSpec(labels: seq<string>, list: seq<string>, place: Place, w: string)
    ensures w in FoundWords(labels, list, place) <==>
              w in list && exists i :: 0 <= i < |labels| && w in Pick(place, LabelWords(labels[i]))
  {
    var picks := Map(labels, term => Matches(term, list, place));
    assert FoundWords(labels, list, place) == Uniq(Flatten(picks));
    FlattenMembership(picks, w);
    if w in Flatten(picks) {
      var i :| 0 <= i < |picks| && w in picks[i];
      assert picks[i] == Matches(labels[i], list, place);
    }
    if w in list && exists i :: 0 <= i < |labels| && w in Pick(place, LabelWords(labels[i])) {
      var i :| 0 <= i < |labels| && w in Pick(place, LabelWords(labels[i]));
      assert picks[i] == Matches(labels[i], list, place);
    }
  }

  /** A word stays in a list exactly when it is in the built-in list and in the given place of no
      lower-cased label; what stays keeps its order and its multiplicity, so the stored list is a
      sub-list of its constant. */
  lemma RemainingWordsSpec(list: seq<string>, labels: seq<string>, place: Place, w: string)
    ensures w in RemainingWords(list, labels, place) <==>
              w in list && forall i :: 0 <= i < |labels| ==> w !in Pick(place, LabelWords(labels[i]))
    ensures multiset(RemainingWords(list, labels, place))[w] ==
              if w in RemainingWords(list, labels, place) then multiset(list)[w] else 0
  {
    FoundWordsSpec(labels, list, place, w);
    MinusSpec(list, FoundWords(labels, list, place), w);
  }

  /** Labels are lower-cased before matching, so the upper-case "I" is never removed from the
      no-term list. */
  lemma UpperCaseIKept(labels: seq<string>)
    ensures "I" in RemainingWords(NoTermWords, labels, AnyWord)
  {
    forall i | 0 <= i < |labels| ensures "I" !in LabelWords(labels[i]) {
      var d := Downcase(labels[i]);
      var ws := Words(d);
      assert forall j :: 0 <= j < |d| ==> d[j] != 'I';
      forall k | 0 <= k < |ws| ensures ws[k] != "I" {
        WordsAreSlices(d, k);
        assert ws[k][0] in d;
      }
    }
    assert NoTermWords[36] == "I";
    RemainingWordsSpec(NoTermWords, labels, AnyWord, "I");
  }

  /** Every character of a word of `s` is a character of `s`. */
  lemma {:induction false} WordsAreSlices(s: string, k: nat)
    requires k < |Words(s)|
    ensures forall j :: 0 <= j < |Words(s)[k]| ==> Words(s)[k][j] in s
  {
    var rest := Words(s[1..]);
    if IsSpace(s[0]) {
      WordsAreSlices(s[1..], k);
    } else if s[1..] != [] && !IsSpace(s[1]) {
      if k == 0 {
        WordsAreSlices(s[1..], 0);
      } else {
        WordsAreSlices(s[1..], k);
      }
    } else if k > 0 {
      WordsAreSlices(s[1..], k - 1);
    }
  }
}
