/** `TEXT_TO_TRIE`: the candidate-span generator of the dictionary manager. A text is cut into
    tokens; every run of `min_tokens` to `max_tokens` consecutive tokens that is not a stop span
    becomes a query string (optionally stemmed, lower-cased and with hyphens replaced), and the
    result maps every query string to the text ranges it was read from. */
module TextAnnotations {
  import opened Outcomes
  import opened RubyText
  import opened Seqs

  /** `begin...end`: the characters `text[begin]` up to, not including, `text[end]`. */
  datatype Range = Range(begin: nat, end: nat)

  // ---------------------------------------------------------------------------------------------
  // Tokens: `text.split(/\s|(\W|_)/).reject { |t| t.empty? }`
  // ---------------------------------------------------------------------------------------------

  /** Only whitespace from `i` up to `j`. */
  predicate Gap(text: string, i: nat, j: nat) {
    i <= j <= |text| && forall k :: i <= k < j ==> IsSpace(text[k])
  }

  /** A token of the split: a maximal run of `[a-zA-Z0-9]` (the separator regex takes every
      `\W` character and `_` out on its own), or one character that is neither whitespace nor
      `[a-zA-Z0-9]` (the captured group keeps it as a token of its own). */
  predicate IsToken(text: string, r: Range) {
    && r.begin < r.end <= |text|
    && (|| ((forall k :: r.begin <= k < r.end ==> IsAlnum(text[k])) && (r.end == |text| || !IsAlnum(text[r.end])))
        || (r.end == r.begin + 1 && !IsSpace(text[r.begin]) && !IsAlnum(text[r.begin])))
  }

  /** Ranges inside `text`, each non-empty, in increasing order and not overlapping. */
  predicate IsLayout(text: string, rs: seq<Range>) {
    && (forall k :: 0 <= k < |rs| ==> rs[k].begin < rs[k].end <= |text|)
    && (forall j, k :: 0 <= j < k < |rs| ==> rs[j].end <= rs[k].begin)
  }

  /** The end of the word token that starts at `pos`. */
  function RunEnd(text: string, pos: nat): (e: nat)
    requires pos <= |text|
    ensures pos <= e <= |text|
    ensures forall k :: pos <= k < e ==> IsAlnum(text[k])
    ensures e == |text| || !IsAlnum(text[e])
    decreases |text| - pos
  {
    if pos == |text| || !IsAlnum(text[pos]) then pos else RunEnd(text, pos + 1)
  }

  /** `r` are the tokens of `text[pos..]`, in order, with only whitespace around and between them. */
  predicate Tokenized(text: string, pos: nat, r: seq<Range>) {
    && pos <= |text|
    && IsLayout(text, r)
    && (forall k :: 0 <= k < |r| ==> pos <= r[k].begin && IsToken(text, r[k]))
    && (forall k :: 0 <= k < |r| - 1 ==> Gap(text, r[k].end, r[k + 1].begin))
    && Gap(text, pos, if r == [] then |text| else r[0].begin)
    && (r != [] ==> Gap(text, r[|r| - 1].end, |text|))
  }

  lemma TokenizedAfterSpace(text: string, pos: nat, r: seq<Range>)
    requires pos < |text| && IsSpace(text[pos]) && Tokenized(text, pos + 1, r)
    ensures Tokenized(text, pos, r)
  {
  }

  lemma TokenizedCons(text: string, pos: nat, e: nat, rest: seq<Range>)
    requires IsToken(text, Range(pos, e)) && Tokenized(text, e, rest)
    ensures Tokenized(text, pos, [Range(pos, e)] + rest)
  {
    var r := [Range(pos, e)] + rest;
    assert forall k :: 1 <= k < |r| ==> r[k] == rest[k - 1];
    assert Gap(text, pos, pos);
  }

  /** The token ranges of `text[pos..]`. */
  function SpansFrom(text: string, pos: nat): seq<Range>
    requires pos <= |text|
    decreases |text| - pos
  {
    if pos == |text| then []
    else if IsSpace(text[pos]) then SpansFrom(text, pos + 1)
    else
      var e := if IsAlnum(text[pos]) then RunEnd(text, pos) else pos + 1;
      [Range(pos, e)] + SpansFrom(text, e)
  }

  /** The ranges are the tokens of `text[pos..]`, in order, with only whitespace around them. */
  lemma {:induction false} SpansFromTokenized(text: string, pos: nat)
    requires pos <= |text|
    ensures Tokenized(text, pos, SpansFrom(text, pos))
    decreases |text| - pos
  {
    if pos == |text| {
      assert Gap(text, pos, |text|);
    } else if IsSpace(text[pos]) {
      SpansFromTokenized(text, pos + 1);
      TokenizedAfterSpace(text, pos, SpansFrom(text, pos + 1));
    } else {
      var e := if IsAlnum(text[pos]) then RunEnd(text, pos) else pos + 1;
      SpansFromTokenized(text, e);
      TokenizedCons(text, pos, e, SpansFrom(text, e));
    }
  }

  function Spans(text: string): seq<Range> {
    SpansFrom(text, 0)
  }

  lemma SpansTokenized(text: string)
    ensures Tokenized(text, 0, Spans(text))
  {
    SpansFromTokenized(text, 0);
  }

  /** The tokens the regex split yields, in order. */
  function Tokens(text: string): (r: seq<string>)
    ensures |r| == |Spans(text)|
  {
    SpansTokenized(text);
    var spans := Spans(text);
    seq(|spans|, k requires 0 <= k < |spans| => text[spans[k].begin..spans[k].end])
  }

  /** Every span holds its token, and the spans increase without overlapping. */
  lemma SpansHoldTokens(text: string)
    ensures IsLayout(text, Spans(text)) && |Tokens(text)| == |Spans(text)|
    ensures forall k :: 0 <= k < |Spans(text)| ==> text[Spans(text)[k].begin..Spans(text)[k].end] == Tokens(text)[k]
  {
    SpansTokenized(text);
  }

  /** `t` occurs in `text` at position `p`. */
  predicate OccursAt(text: string, t: string, p: nat) {
    p + |t| <= |text| && text[p..p + |t|] == t
  }

  /** `text.index(t, from)`: the first position at or after `from` where `t` occurs. */
  function IndexFrom(text: string, t: string, from: nat): (r: Option<nat>)
    ensures r.Some? ==> from <= r.value && OccursAt(text, t, r.value)
    ensures r.Some? ==> forall p :: from <= p < r.value ==> !OccursAt(text, t, p)
    ensures r.None? ==> forall p :: from <= p ==> !OccursAt(text, t, p)
    decreases |text| - from
  {
    if from + |t| > |text| then None
    else if text[from..from + |t|] == t then Some(from)
    else IndexFrom(text, t, from + 1)
  }

  /** Searching for token `i` from the end of token `i - 1` finds it where it is. */
  lemma TokenFound(text: string, i: nat)
    requires i < |Spans(text)|
    ensures var spans := Spans(text);
            && IndexFrom(text, Tokens(text)[i], if i == 0 then 0 else spans[i - 1].end) == Some(spans[i].begin)
            && spans[i].begin + |Tokens(text)[i]| == spans[i].end
  {
    SpansTokenized(text);
    var spans := Spans(text);
    var t := Tokens(text)[i];
    var from := if i == 0 then 0 else spans[i - 1].end;
    assert t == text[spans[i].begin..spans[i].end] && |t| == spans[i].end - spans[i].begin;
    assert IsToken(text, spans[i]);
    assert Gap(text, from, spans[i].begin);
    IndexAfterGap(text, t, from, spans[i].begin);
  }

  /** A token found after a whitespace gap is found where it is. */
  lemma IndexAfterGap(text: string, t: string, from: nat, b: nat)
    requires Gap(text, from, b) && t != [] && !IsSpace(t[0])
    requires b + |t| <= |text| && text[b..b + |t|] == t
    ensures IndexFrom(text, t, from) == Some(b)
  {
    assert OccursAt(text, t, b);
  }

  // ---------------------------------------------------------------------------------------------
  // Stop spans: `stopwords?`
  // ---------------------------------------------------------------------------------------------

  /** `@STOP_WORDS` as the constructor builds it: two adjacent string literals without a comma
      between them are one literal in Ruby, so the list holds `"doesdid"` and neither `"does"`
      nor `"did"`. */
  const StopWordsAsWritten: set<string> := FunctionWords + AuxiliaryWords + QualifierWords + BiologyWords

  /** Lines 22 to 27 of the list. */
  const FunctionWords: set<string> :=
    {"this", "that", "these", "those",
     "plus", "minus",
     "one", "two", "three",
     "and", "or", "but", "as",
     "at", "by", "from", "to", "in", "of", "with", "for",
     "an", "the", "not", "no"}

  /** Lines 28 and 29, with the two literals of line 28 run together. */
  const AuxiliaryWords: set<string> :=
    {"can", "has", "have", "had", "am", "are", "is", "was", "were", "do", "doesdid",
     "we"}

  /** Lines 30 to 32. */
  const QualifierWords: set<string> :=
    {"blocked", "regulated", "transformed",
     "clear", "early", "essential", "functional", "high", "multiple", "little", "partial", "unclear",
     "cytosolic", "secreting", "function", "per", "se", "set", "line", "lines", "run"}

  /** Lines 33 to 36. */
  const BiologyWords: set<string> :=
    {"activator", "binding", "bp", "cell", "dna", "factor", "factors", "mitochondria",
     "mitochondrial", "mrna", "rna",
     "metabolite", "reduced", "regulation", "regulatory", "replication",
     "enzyme", "fragment", "fragments", "membrane", "type", "dna binding", "fold", "receptor"}

  /** The stop-word list as evidently intended: `"does"` and `"did"` as two words. */
  const StopWords: set<string> := StopWordsAsWritten - {"doesdid"} + {"does", "did"}

  /** The characters a stop span starts or ends with. */
  const EdgeChars: set<char> := {'-', '(', ')', ',', '.'}

  /** `stopwords?` against the generator's stop-word list `words`. */
  predicate IsStopSpan(q: string, words: set<string>) {
    || Downcase(q) in words
    || |q| <= 1
    || StartsWith(Downcase(q), "the ") || StartsWith(Downcase(q), "a ") || StartsWith(Downcase(q), "an ")
    || q[0] in EdgeChars || q[|q| - 1] in EdgeChars
    || (forall k :: 0 <= k < |q| ==> IsDigit(q[k]) || q[k] == '.')
    || (|q| == 2 && IsDigit(q[0]) && IsAsciiLetter(q[1]))
  }

  /** The written list holds "doesdid" and neither "does" nor "did"; the corrected one holds both
      words and not their concatenation. */
  lemma StopWordListAsWritten()
    ensures "doesdid" in StopWordsAsWritten && "does" !in StopWordsAsWritten && "did" !in StopWordsAsWritten
  {
    DoesDidNotFunctionWords();
    DoesDidNotAuxiliaryWords();
    DoesDidNotQualifierWords();
    DoesDidNotBiologyWords();
  }

  lemma DoesDidNotFunctionWords()
    ensures "does" !in FunctionWords && "did" !in FunctionWords
  {
  }

  lemma DoesDidNotAuxiliaryWords()
    ensures "does" !in AuxiliaryWords && "did" !in AuxiliaryWords && "doesdid" in AuxiliaryWords
  {
  }

  lemma DoesDidNotQualifierWords()
    ensures "does" !in QualifierWords && "did" !in QualifierWords
  {
  }

  lemma DoesDidNotBiologyWords()
    ensures "does" !in BiologyWords && "did" !in BiologyWords
  {
  }

  lemma StopWordListCorrected()
    ensures "doesdid" !in StopWords && "does" in StopWords && "did" in StopWords
  {
  }

  /** "does" and "did", in any letter case, are stop spans exactly when the list holds them: no
      other rule of `stopwords?` applies to them. */
  lemma {:induction false} DoesDidStopWhenListed(words: set<string>)
    ensures IsStopSpan("does", words) <==> "does" in words
    ensures IsStopSpan("Does", words) <==> "does" in words
    ensures IsStopSpan("did", words) <==> "did" in words
    ensures IsStopSpan("Did", words) <==> "did" in words
  {
    DoesDidDowncase();
    WordStopWhenListed("does", words);
    WordStopWhenListed("Does", words);
    WordStopWhenListed("did", words);
    WordStopWhenListed("Did", words);
  }

  lemma DoesDidDowncase()
    ensures Downcase("does") == "does" && Downcase("Does") == "does"
    ensures Downcase("did") == "did" && Downcase("Did") == "did"
  {
  }

  /** A word of two or more letters meets no rule of `stopwords?` but the list. */
  lemma WordStopWhenListed(q: string, words: set<string>)
    requires |q| >= 2 && forall k :: 0 <= k < |q| ==> IsAsciiLetter(q[k])
    ensures IsStopSpan(q, words) <==> Downcase(q) in words
  {
    var d := Downcase(q);
    LowerLetter(q[1]);
    if |q| > 2 { LowerLetter(q[2]); }
    if |q| > 3 { LowerLetter(q[3]); }
    NoArticle(d);
    LetterNotEdge(q[0]);
    LetterNotEdge(q[|q| - 1]);
    assert !IsDigit(q[0]) && q[0] != '.';
  }

  lemma LetterNotEdge(c: char)
    requires IsAsciiLetter(c)
    ensures c !in EdgeChars
  {
  }

  lemma LowerLetter(c: char)
    requires IsAsciiLetter(c)
    ensures Lower(c) != ' '
  {
  }

  /** A string whose second to fourth characters are not spaces starts with no article. */
  lemma NoArticle(d: string)
    requires |d| >= 2 && d[1] != ' ' && (|d| > 2 ==> d[2] != ' ') && (|d| > 3 ==> d[3] != ' ')
    ensures !StartsWith(d, "a ") && !StartsWith(d, "an ") && !StartsWith(d, "the ")
  {
    assert "a "[1] == ' ' && "an "[2] == ' ' && "the "[3] == ' ';
  }

  /** As written, "does" and "did" are not stop spans and reach the trie as query strings; with the
      corrected list they are stop spans. */
  lemma DoesDidAsWritten()
    ensures !IsStopSpan("does", StopWordsAsWritten) && !IsStopSpan("did", StopWordsAsWritten)
  {
    StopWordListAsWritten();
    DoesDidStopWhenListed(StopWordsAsWritten);
  }

  lemma DoesDidCorrected()
    ensures IsStopSpan("does", StopWords) && IsStopSpan("Did", StopWords)
  {
    StopWordListCorrected();
    DoesDidStopWhenListed(StopWords);
  }

  /** Replacing "doesdid" by "does" and "did" changes the verdict on no other span. */
  lemma CorrectionIsLocal(q: string, words: set<string>)
    requires Downcase(q) !in {"does", "did", "doesdid"}
    ensures IsStopSpan(q, words - {"doesdid"} + {"does", "did"}) <==> IsStopSpan(q, words)
  {
  }

  /** One character, or a span that starts with "the ", "a " or "an " in any letter case, is a stop
      span whatever the list; so are all-digit spans such as years and numbered items like "2a". */
  lemma {:induction false} StopSpanCases(q: string, rest: string, words: set<string>)
    ensures |q| <= 1 ==> IsStopSpan(q, words)
    ensures IsStopSpan("the " + rest, words) && IsStopSpan("The " + rest, words)
    ensures IsStopSpan("a " + rest, words) && IsStopSpan("A " + rest, words)
    ensures IsStopSpan("an " + rest, words) && IsStopSpan("An " + rest, words)
    ensures IsStopSpan("1999", words) && IsStopSpan("2a", words)
  {
    ArticleSpanStops("the ", "the ", rest, words);
    ArticleSpanStops("The ", "the ", rest, words);
    ArticleSpanStops("a ", "a ", rest, words);
    ArticleSpanStops("A ", "a ", rest, words);
    ArticleSpanStops("an ", "an ", rest, words);
    ArticleSpanStops("An ", "an ", rest, words);
    assert forall k :: 0 <= k < 4 ==> IsDigit("1999"[k]);
  }

  /** A span that starts with an article in any letter case is a stop span. */
  lemma ArticleSpanStops(article: string, lower: string, rest: string, words: set<string>)
    requires lower == "the " || lower == "a " || lower == "an "
    requires Downcase(article) == lower
    ensures IsStopSpan(article + rest, words)
  {
    var d := Downcase(article + rest);
    assert d[..|article|] == lower;
  }

  // ---------------------------------------------------------------------------------------------
  // Stemming: `stem_it`
  // ---------------------------------------------------------------------------------------------

  /** The query `stem_it` builds from tokens `b` up to, not including, `e`: each token's stem, with
      the text between consecutive tokens copied as it is. */
  function Stemmed(text: string, offsets: seq<Range>, b: nat, e: nat, stem: string -> string): string
    requires IsLayout(text, offsets) && b <= e <= |offsets|
    decreases e
  {
    if e <= b then ""
    else
      var gap := if e - 1 > b then text[offsets[e - 2].end..offsets[e - 1].begin] else "";
      Stemmed(text, offsets, b, e - 1, stem) + gap + stem(text[offsets[e - 1].begin..offsets[e - 1].end])
  }

  /** One more token appends the text since the previous token and the token's stem. */
  lemma StemmedNext(text: string, offsets: seq<Range>, b: nat, t: nat, e: nat, stem: string -> string)
    requires IsLayout(text, offsets) && b <= t < |offsets| && e == t + 1
    ensures offsets[t].begin < offsets[t].end <= |text|
    ensures t > b ==> offsets[t - 1].end <= offsets[t].begin
    ensures Stemmed(text, offsets, b, e, stem)
            == Stemmed(text, offsets, b, t, stem)
               + (if t > b then text[offsets[t - 1].end..offsets[t].begin] else "")
               + stem(text[offsets[t].begin..offsets[t].end])
  {
  }

  /** `offsets[i]`'s token of `text`. */
  function TokenText(text: string, offsets: seq<Range>, i: nat): string
    requires IsLayout(text, offsets) && i < |offsets|
  {
    text[offsets[i].begin..offsets[i].end]
  }

  /** With a stem that changes nothing, the stemmed query is the raw text of the tokens. */
  lemma StemmedIdentity(text: string, offsets: seq<Range>, b: nat, e: nat, stem: string -> string)
    requires IsLayout(text, offsets) && b < e <= |offsets|
    requires forall w :: stem(w) == w
    ensures Stemmed(text, offsets, b, e, stem) == text[offsets[b].begin..offsets[e - 1].end]
  {
    forall i | b <= i < e
      ensures stem(TokenText(text, offsets, i)) == TokenText(text, offsets, i)
    {
    }
    StemmedKeptTokens(text, offsets, b, e, stem);
  }

  /** When the stem keeps every token from `b` up to `e` as it is, the stemmed query is the raw
      text of those tokens. */
  lemma {:induction false} StemmedKeptTokens(text: string, offsets: seq<Range>, b: nat, e: nat, stem: string -> string)
    requires IsLayout(text, offsets) && b < e <= |offsets|
    requires forall i :: b <= i < e ==> stem(TokenText(text, offsets, i)) == TokenText(text, offsets, i)
    ensures Stemmed(text, offsets, b, e, stem) == text[offsets[b].begin..offsets[e - 1].end]
    decreases e
  {
    var t := e - 1;
    if t > b {
      StemmedKeptTokens(text, offsets, b, t, stem);
      StemmedKeptStep(text, offsets, b, t, e, stem);
    } else {
      StemmedKeptFirst(text, offsets, b, e, stem);
    }
  }

  /** The step of `StemmedKeptTokens` from `t` to `e == t + 1` tokens: the raw text up to token
      `t - 1`, the gap and the kept token `t` make the raw text up to token `t`. */
  lemma StemmedKeptStep(text: string, offsets: seq<Range>, b: nat, t: nat, e: nat, stem: string -> string)
    requires IsLayout(text, offsets) && b < t && e == t + 1 && e <= |offsets|
    requires Stemmed(text, offsets, b, t, stem) == text[offsets[b].begin..offsets[t - 1].end]
    requires stem(TokenText(text, offsets, t)) == TokenText(text, offsets, t)
    ensures Stemmed(text, offsets, b, e, stem) == text[offsets[b].begin..offsets[t].end]
  {
    StemmedNext(text, offsets, b, t, e, stem);
    assert offsets[b].end <= offsets[t - 1].end;
    SliceConcat3(text, offsets[b].begin, offsets[t - 1].end, offsets[t].begin, offsets[t].end);
  }

  lemma SliceConcat3(text: string, x: nat, y: nat, z: nat, w: nat)
    requires x <= y <= z <= w <= |text|
    ensures text[x..y] + text[y..z] + text[z..w] == text[x..w]
  {
    SliceConcat(text, x, y, z);
    SliceConcat(text, x, z, w);
  }

  lemma StemmedKeptFirst(text: string, offsets: seq<Range>, b: nat, e: nat, stem: string -> string)
    requires IsLayout(text, offsets) && e == b + 1 && e <= |offsets|
    requires stem(TokenText(text, offsets, b)) == TokenText(text, offsets, b)
    ensures Stemmed(text, offsets, b, e, stem) == text[offsets[b].begin..offsets[e - 1].end]
  {
    StemmedNext(text, offsets, b, b, e, stem);
    EmptyAppend("");
    EmptyAppend(TokenText(text, offsets, b));
  }

  lemma SliceConcat(text: string, x: nat, y: nat, z: nat)
    requires x <= y <= z <= |text|
    ensures text[x..y] + text[y..z] == text[x..z]
  {
  }

  // ---------------------------------------------------------------------------------------------
  // Candidate spans and the trie: `to_trie`
  // ---------------------------------------------------------------------------------------------

  /** The flags of `to_trie`: `bCaseInsensitive`, `bReplaceHyphen`, `bStemming`. */
  datatype Options = Options(caseInsensitive: bool, replaceHyphen: bool, stemming: bool)

  /** The span of `len` tokens starting at token `beg`. */
  datatype Window = Window(beg: nat, len: nat)

  predicate Fits(n: nat, w: Window) {
    1 <= w.len && w.beg + w.len <= n
  }

  /** Every window of `ws` fits `n` tokens. */
  predicate AllFit(n: nat, ws: seq<Window>) {
    forall w :: w in ws ==> Fits(n, w)
  }

  /** The starts `0..n-len` of the inner loop, for one length. */
  function Windows(n: nat, len: nat): (r: seq<Window>)
    requires 1 <= len
    ensures |r| == if len <= n then n - len + 1 else 0
    ensures forall k :: 0 <= k < |r| ==> r[k] == Window(k, len) && Fits(n, r[k])
  {
    if len <= n then seq(n - len + 1, k requires 0 <= k => Window(k, len)) else []
  }

  /** Every window the two loops visit, for the lengths `lo..hi`, in the order they visit them. */
  function Enumerated(n: nat, lo: int, hi: int): (r: seq<Window>)
    requires 1 <= lo
    ensures forall k :: 0 <= k < |r| ==> Fits(n, r[k]) && lo <= r[k].len <= hi
    ensures AllFit(n, r)
    decreases hi - lo
  {
    if hi < lo then [] else Enumerated(n, lo, hi - 1) + Windows(n, hi)
  }

  /** Every window of `lo..hi` tokens is visited, and no window with more tokens than the text. */
  lemma EnumeratedCovers(n: nat, lo: int, hi: int, w: Window)
    requires 1 <= lo
    ensures w in Enumerated(n, lo, hi) <==> Fits(n, w) && lo <= w.len <= hi
    decreases hi - lo
  {
    if hi >= lo {
      EnumeratedCovers(n, lo, hi - 1, w);
      if Fits(n, w) && w.len == hi {
        assert Windows(n, hi)[w.beg] == w;
      }
    }
  }

  /** `offsets[beg][:begin]...offsets[beg+len-1][:end]` */
  function SpanRange(offsets: seq<Range>, w: Window): Range
    requires Fits(|offsets|, w)
  {
    Range(offsets[w.beg].begin, offsets[w.beg + w.len - 1].end)
  }

  function RawSpan(text: string, offsets: seq<Range>, w: Window): string
    requires IsLayout(text, offsets) && Fits(|offsets|, w)
  {
    text[offsets[w.beg].begin..offsets[w.beg + w.len - 1].end]
  }

  /** The query string of a window: stemmed, then lower-cased, then with `-` replaced by a space,
      each step as its flag says. */
  function QueryOf(text: string, offsets: seq<Range>, w: Window, opts: Options, stem: string -> string): string
    requires IsLayout(text, offsets) && Fits(|offsets|, w)
  {
    var q := if opts.stemming then Stemmed(text, offsets, w.beg, w.beg + w.len, stem) else RawSpan(text, offsets, w);
    var q := if opts.caseInsensitive then Downcase(q) else q;
    if opts.replaceHyphen then ReplaceChar(q, '-', ' ') else q
  }

  /** A query string with the range it was read from. */
  datatype Candidate = Candidate(query: string, range: Range)

  /** The candidate's range lies in the text and its raw text is not a stop span. */
  predicate ReadsNonStopSpan(text: string, words: set<string>, c: Candidate) {
    c.range.begin <= c.range.end <= |text| && !IsStopSpan(text[c.range.begin..c.range.end], words)
  }

  /** The candidate's query string is the text of its range. */
  predicate IsTextAt(text: string, c: Candidate) {
    c.range.begin <= c.range.end <= |text| && c.query == text[c.range.begin..c.range.end]
  }

  /** The windows that are not stop spans, in visiting order, with their query strings. */
  function Candidates(text: string, offsets: seq<Range>, ws: seq<Window>, opts: Options, stem: string -> string,
                      words: set<string>): (r: seq<Candidate>)
    requires IsLayout(text, offsets) && AllFit(|offsets|, ws)
    ensures |r| <= |ws|
    decreases |ws|
  {
    if ws == [] then []
    else
      Candidates(text, offsets, ws[..|ws| - 1], opts, stem, words) + Kept(text, offsets, ws[|ws| - 1], opts, stem, words)
  }

  /** What one window adds: nothing for a stop span, otherwise its query string and range. */
  function Kept(text: string, offsets: seq<Range>, w: Window, opts: Options, stem: string -> string,
                words: set<string>): (r: seq<Candidate>)
    requires IsLayout(text, offsets) && Fits(|offsets|, w)
    ensures |r| <= 1
  {
    if IsStopSpan(RawSpan(text, offsets, w), words) then []
    else [Candidate(QueryOf(text, offsets, w, opts, stem), SpanRange(offsets, w))]
  }

  /** No candidate comes from a stop span, whatever the flags. */
  lemma {:induction false} CandidatesSkipStopSpans(text: string, offsets: seq<Range>, ws: seq<Window>, opts: Options,
                                                   stem: string -> string, words: set<string>)
    requires IsLayout(text, offsets) && AllFit(|offsets|, ws)
    ensures forall c :: c in Candidates(text, offsets, ws, opts, stem, words) ==> ReadsNonStopSpan(text, words, c)
  {
    if ws != [] {
      var w := ws[|ws| - 1];
      CandidatesSkipStopSpans(text, offsets, ws[..|ws| - 1], opts, stem, words);
      assert RawSpan(text, offsets, w) == text[SpanRange(offsets, w).begin..SpanRange(offsets, w).end];
    }
  }

  /** With the hyphen flag, no query string holds a `-`. */
  lemma {:induction false} CandidatesHyphenFree(text: string, offsets: seq<Range>, ws: seq<Window>, opts: Options,
                                                stem: string -> string, words: set<string>)
    requires IsLayout(text, offsets) && AllFit(|offsets|, ws)
    requires opts.replaceHyphen
    ensures forall c :: c in Candidates(text, offsets, ws, opts, stem, words) ==> '-' !in c.query
  {
    if ws != [] {
      var w := ws[|ws| - 1];
      CandidatesHyphenFree(text, offsets, ws[..|ws| - 1], opts, stem, words);
      assert '-' !in QueryOf(text, offsets, w, opts, stem);
    }
  }

  /** Without any flag, every query string is the text of its range. */
  lemma {:induction false} CandidatesAreRawText(text: string, offsets: seq<Range>, ws: seq<Window>,
                                                stem: string -> string, words: set<string>)
    requires IsLayout(text, offsets) && AllFit(|offsets|, ws)
    ensures forall c :: c in Candidates(text, offsets, ws, Options(false, false, false), stem, words) ==> IsTextAt(text, c)
  {
    if ws != [] {
      var init, w := ws[..|ws| - 1], ws[|ws| - 1];
      var opts := Options(false, false, false);
      CandidatesAreRawText(text, offsets, init, stem, words);
      var c := Candidate(QueryOf(text, offsets, w, opts, stem), SpanRange(offsets, w));
      RawCandidateIsText(text, offsets, w, stem);
      assert ws == init + [w];
      CandidatesSnoc(text, offsets, init, w, opts, stem, words);
    }
  }

  /** Without any flag, a window's query string is the text of its range. */
  lemma RawCandidateIsText(text: string, offsets: seq<Range>, w: Window, stem: string -> string)
    requires IsLayout(text, offsets) && Fits(|offsets|, w)
    ensures IsTextAt(text, Candidate(QueryOf(text, offsets, w, Options(false, false, false), stem), SpanRange(offsets, w)))
  {
    assert QueryOf(text, offsets, w, Options(false, false, false), stem) == RawSpan(text, offsets, w);
  }

  /** `trie[q] = (trie[q] or []) + [range]` */
  function Record(trie: map<string, seq<Range>>, c: Candidate): map<string, seq<Range>> {
    trie[c.query := (if c.query in trie then trie[c.query] else []) + [c.range]]
  }

  /** The trie after recording the candidates in order. */
  function Grouped(cs: seq<Candidate>): map<string, seq<Range>> {
    if cs == [] then map[] else Record(Grouped(cs[..|cs| - 1]), cs[|cs| - 1])
  }

  function HasQuery(q: string): Candidate -> bool {
    (c: Candidate) => c.query == q
  }

  function RangeOf(c: Candidate): Range {
    c.range
  }

  /** The trie holds exactly the query strings of the candidates. */
  lemma {:induction false} GroupedKeys(cs: seq<Candidate>, q: string)
    ensures q in Grouped(cs) <==> exists c :: c in cs && c.query == q
  {
    if cs != [] {
      var init, c := cs[..|cs| - 1], cs[|cs| - 1];
      SnocSplit(cs);
      GroupedKeys(init, q);
      assert forall d :: d in cs <==> d in init || d == c;
    }
  }

  /** Each query string maps to the ranges of all candidates with that query string, in visiting
      order. */
  lemma {:induction false} GroupedRanges(cs: seq<Candidate>, q: string)
    requires q in Grouped(cs)
    ensures Grouped(cs)[q] == Map(Filter(cs, HasQuery(q)), RangeOf)
  {
    var init, c := cs[..|cs| - 1], cs[|cs| - 1];
    var g := Grouped(init);
    if c.query == q {
      assert Filter(cs, HasQuery(q)) == Filter(init, HasQuery(q)) + [c];
      MapSnoc(Filter(init, HasQuery(q)), c, RangeOf);
      if q in g {
        GroupedRanges(init, q);
      } else {
        GroupedKeys(init, q);
        assert Filter(init, HasQuery(q)) == [];
      }
    } else {
      assert Filter(cs, HasQuery(q)) == Filter(init, HasQuery(q));
      GroupedRanges(init, q);
    }
  }

  /** The trie `to_trie` returns, for a text whose tokens are `Spans(text)`. */
  function TrieOf(text: string, minTokens: int, maxTokens: int, opts: Options, stem: string -> string,
                  words: set<string>): map<string, seq<Range>>
    requires 1 <= minTokens
  {
    SpansTokenized(text);
    var offsets := Spans(text);
    Grouped(Candidates(text, offsets, Enumerated(|offsets|, minTokens, maxTokens), opts, stem, words))
  }

  /** With a stem that changes nothing, stemming leaves every query string as it is. */
  lemma IdentityStemKeepsQueries(text: string, offsets: seq<Range>, w: Window, opts: Options, stem: string -> string)
    requires IsLayout(text, offsets) && Fits(|offsets|, w)
    requires forall s :: stem(s) == s
    ensures QueryOf(text, offsets, w, opts, stem) == QueryOf(text, offsets, w, opts.(stemming := false), stem)
  {
    StemmedIdentity(text, offsets, w.beg, w.beg + w.len, stem);
    assert Stemmed(text, offsets, w.beg, w.beg + w.len, stem) == RawSpan(text, offsets, w);
  }

  /** "the cat sat" with one- and two-token spans: "the" is a stop word and "the cat" starts with
      "the ", so the trie holds the other three spans, each with the range it was read from. */
  lemma TheCatSat(words: set<string>, stem: string -> string)
    requires "the" in words && "cat" !in words && "sat" !in words && "cat sat" !in words
    ensures TrieOf("the cat sat", 1, 2, Options(false, false, false), stem, words)
            == map["cat" := [Range(4, 7)], "sat" := [Range(8, 11)], "cat sat" := [Range(4, 11)]]
  {
    TheCatSatTrie(words, stem);
    TheCatSatCandidates(words, stem);
    TheCatSatGrouped();
  }

  /** The sample text of the lemmas below, its token ranges, its windows of one and two tokens
      and the candidates they give with every flag off. */
  const Sample := "the cat sat"
  const SampleOffsets := [Range(0, 3), Range(4, 7), Range(8, 11)]
  const AsIs := Options(false, false, false)
  const WThe := Window(0, 1)
  const WCat := Window(1, 1)
  const WSat := Window(2, 1)
  const WTheCat := Window(0, 2)
  const WCatSat := Window(1, 2)
  const CCat := Candidate("cat", Range(4, 7))
  const CSat := Candidate("sat", Range(8, 11))
  const CCatSat := Candidate("cat sat", Range(4, 11))

  /** The trie is built from the candidates of the five windows of one and two tokens. */
  lemma TheCatSatTrie(words: set<string>, stem: string -> string)
    ensures IsLayout(Sample, SampleOffsets)
    ensures AllFit(|SampleOffsets|, ([WThe] + [WCat] + [WSat]) + ([WTheCat] + [WCatSat]))
    ensures TrieOf(Sample, 1, 2, AsIs, stem, words) == Grouped(Candidates(Sample, SampleOffsets, ([WThe] + [WCat] + [WSat]) + ([WTheCat] + [WCatSat]), AsIs, stem, words))
  {
    TheCatSatSpans();
    SpansTokenized(Sample);
    TheCatSatWindows();
  }

  lemma TheCatSatGrouped()
    ensures Grouped([CCat, CSat, CCatSat])
            == map["cat" := [Range(4, 7)], "sat" := [Range(8, 11)], "cat sat" := [Range(4, 11)]]
  {
    var cat, sat, catSat := CCat, CSat, CCatSat;
    JoinTwoOne(cat, sat, catSat);
    JoinTwo(cat, sat);
    EmptyAppend([cat]);
    GroupedSnoc([], cat);
    GroupedSnoc([cat], sat);
    GroupedSnoc([cat, sat], catSat);
    var m1, m2 := map["cat" := [Range(4, 7)]], map["cat" := [Range(4, 7)], "sat" := [Range(8, 11)]];
    EmptyAppend([Range(4, 7)]);
    EmptyAppend([Range(8, 11)]);
    EmptyAppend([Range(4, 11)]);
    assert Record(map[], cat) == m1;
    assert Record(m1, sat) == m2;
  }

  lemma TheCatSatSpans()
    ensures Spans(Sample) == SampleOffsets
  {
    var text := Sample;
    assert RunEnd(text, 8) == 11 && RunEnd(text, 4) == 7 && RunEnd(text, 0) == 3;
    assert SpansFrom(text, 8) == [Range(8, 11)];
    assert SpansFrom(text, 4) == [Range(4, 7), Range(8, 11)];
  }

  lemma TheCatSatWindows()
    ensures Enumerated(3, 1, 2) == ([WThe] + [WCat] + [WSat]) + ([WTheCat] + [WCatSat])
  {
    JoinTwo(WTheCat, WCatSat);
    JoinThree(WThe, WCat, WSat);
    assert Windows(3, 1) == [WThe, WCat, WSat];
    assert Windows(3, 2) == [WTheCat, WCatSat];
  }

  /** The candidates of the five windows together. */
  lemma TheCatSatCandidates(words: set<string>, stem: string -> string)
    requires "the" in words && "cat" !in words && "sat" !in words && "cat sat" !in words
    ensures IsLayout(Sample, SampleOffsets)
    ensures AllFit(|SampleOffsets|, ([WThe] + [WCat] + [WSat]) + ([WTheCat] + [WCatSat]))
    ensures Candidates(Sample, SampleOffsets, ([WThe] + [WCat] + [WSat]) + ([WTheCat] + [WCatSat]), AsIs, stem, words) == [CCat, CSat, CCatSat]
  {
    TheCatSatOneToken(words, stem);
    TheCatSatTwoTokens(words, stem);
    JoinTwoOne(CCat, CSat, CCatSat);
    CandidatesAppend(Sample, SampleOffsets, [WThe] + [WCat] + [WSat], [WTheCat] + [WCatSat], AsIs, stem, words);
  }

  /** The one-token spans: "the" is a stop word, "cat" and "sat" are kept. */
  lemma TheCatSatOneToken(words: set<string>, stem: string -> string)
    requires "the" in words && "cat" !in words && "sat" !in words
    ensures IsLayout(Sample, SampleOffsets)
    ensures AllFit(|SampleOffsets|, [WThe] + [WCat] + [WSat])
    ensures Candidates(Sample, SampleOffsets, [WThe] + [WCat] + [WSat], AsIs, stem, words) == [CCat, CSat]
  {
    TheCatSatOneTokenEach(words, stem);
    KeptLastTwo(Sample, SampleOffsets, [WThe], [WCat], [WSat], AsIs, stem, words, CCat, CSat);
  }

  lemma TheCatSatOneTokenEach(words: set<string>, stem: string -> string)
    requires "the" in words && "cat" !in words && "sat" !in words
    ensures IsLayout(Sample, SampleOffsets)
    ensures AllFit(|SampleOffsets|, [WThe]) && AllFit(|SampleOffsets|, [WCat]) && AllFit(|SampleOffsets|, [WSat])
    ensures Candidates(Sample, SampleOffsets, [WThe], AsIs, stem, words) == []
    ensures Candidates(Sample, SampleOffsets, [WCat], AsIs, stem, words) == [CCat]
    ensures Candidates(Sample, SampleOffsets, [WSat], AsIs, stem, words) == [CSat]
  {
    TheCatSatThe(words, stem);
    TheCatSatCat(words, stem);
    TheCatSatSat(words, stem);
  }

  /** The two-token spans: "the cat" starts with an article, "cat sat" is kept. */
  lemma TheCatSatTwoTokens(words: set<string>, stem: string -> string)
    requires "cat sat" !in words
    ensures IsLayout(Sample, SampleOffsets)
    ensures AllFit(|SampleOffsets|, [WTheCat] + [WCatSat])
    ensures Candidates(Sample, SampleOffsets, [WTheCat] + [WCatSat], AsIs, stem, words) == [CCatSat]
  {
    TheCatSatTwoTokensEach(words, stem);
    KeptLast(Sample, SampleOffsets, [WTheCat], [WCatSat], AsIs, stem, words, CCatSat);
  }

  lemma TheCatSatTwoTokensEach(words: set<string>, stem: string -> string)
    requires "cat sat" !in words
    ensures IsLayout(Sample, SampleOffsets)
    ensures AllFit(|SampleOffsets|, [WTheCat]) && AllFit(|SampleOffsets|, [WCatSat])
    ensures Candidates(Sample, SampleOffsets, [WTheCat], AsIs, stem, words) == []
    ensures Candidates(Sample, SampleOffsets, [WCatSat], AsIs, stem, words) == [CCatSat]
  {
    TheCatSatTheCat(words, stem);
    TheCatSatCatSat(words, stem);
  }

  lemma TheCatSatLayout()
    ensures IsLayout(Sample, SampleOffsets)
  {
  }

  lemma TheCatSatThe(words: set<string>, stem: string -> string)
    requires "the" in words
    ensures IsLayout(Sample, SampleOffsets)
    ensures Candidates(Sample, SampleOffsets, [WThe], AsIs, stem, words) == []
  {
    TheCatSatLayout();
    assert RawSpan(Sample, SampleOffsets, WThe) == "the";
    StopWordSpan("the", words);
    StopWindow(Sample, SampleOffsets, WThe, AsIs, stem, words, "the");
  }

  lemma TheCatSatCat(words: set<string>, stem: string -> string)
    requires "cat" !in words
    ensures IsLayout(Sample, SampleOffsets)
    ensures Candidates(Sample, SampleOffsets, [WCat], AsIs, stem, words) == [CCat]
  {
    TheCatSatLayout();
    assert RawSpan(Sample, SampleOffsets, WCat) == "cat";
    PlainSpan("cat", words);
    KeptWindow(Sample, SampleOffsets, WCat, AsIs, stem, words, "cat", Range(4, 7));
  }

  lemma TheCatSatSat(words: set<string>, stem: string -> string)
    requires "sat" !in words
    ensures IsLayout(Sample, SampleOffsets)
    ensures Candidates(Sample, SampleOffsets, [WSat], AsIs, stem, words) == [CSat]
  {
    TheCatSatLayout();
    assert RawSpan(Sample, SampleOffsets, WSat) == "sat";
    PlainSpan("sat", words);
    KeptWindow(Sample, SampleOffsets, WSat, AsIs, stem, words, "sat", Range(8, 11));
  }

  lemma TheCatSatTheCat(words: set<string>, stem: string -> string)
    ensures IsLayout(Sample, SampleOffsets)
    ensures Candidates(Sample, SampleOffsets, [WTheCat], AsIs, stem, words) == []
  {
    TheCatSatLayout();
    assert RawSpan(Sample, SampleOffsets, WTheCat) == "the cat";
    ArticleSpan(words);
    StopWindow(Sample, SampleOffsets, WTheCat, AsIs, stem, words, "the cat");
  }

  lemma TheCatSatCatSat(words: set<string>, stem: string -> string)
    requires "cat sat" !in words
    ensures IsLayout(Sample, SampleOffsets)
    ensures Candidates(Sample, SampleOffsets, [WCatSat], AsIs, stem, words) == [CCatSat]
  {
    TheCatSatLayout();
    assert RawSpan(Sample, SampleOffsets, WCatSat) == "cat sat";
    PlainSpan("cat sat", words);
    KeptWindow(Sample, SampleOffsets, WCatSat, AsIs, stem, words, "cat sat", Range(4, 11));
  }

  /** A window whose span is a stop span gives no candidate. */
  lemma StopWindow(text: string, offsets: seq<Range>, w: Window, opts: Options, stem: string -> string,
                   words: set<string>, q: string)
    requires IsLayout(text, offsets) && Fits(|offsets|, w)
    requires RawSpan(text, offsets, w) == q && IsStopSpan(q, words)
    ensures Candidates(text, offsets, [w], opts, stem, words) == []
  {
    OneWindow(text, offsets, w, opts, stem, words, []);
  }

  /** A window whose span is no stop span gives one candidate: its query and its range; with
      every flag off, the query is the span itself. */
  lemma KeptWindow(text: string, offsets: seq<Range>, w: Window, opts: Options, stem: string -> string,
                   words: set<string>, q: string, r: Range)
    requires IsLayout(text, offsets) && Fits(|offsets|, w) && opts == Options(false, false, false)
    requires RawSpan(text, offsets, w) == q && !IsStopSpan(q, words) && SpanRange(offsets, w) == r
    ensures Candidates(text, offsets, [w], opts, stem, words) == [Candidate(q, r)]
  {
    OneWindow(text, offsets, w, opts, stem, words, [Candidate(q, r)]);
  }

  /** A span that starts with "the " is a stop span. */
  lemma ArticleSpan(words: set<string>)
    ensures IsStopSpan("the cat", words)
  {
    assert Downcase("the cat")[..4] == "the ";
  }

  /** Three runs of windows of which the first gives no candidate and the other two one each. */
  lemma KeptLastTwo(text: string, offsets: seq<Range>, a: seq<Window>, b: seq<Window>, c: seq<Window>, opts: Options,
                    stem: string -> string, words: set<string>, cb: Candidate, cc: Candidate)
    requires IsLayout(text, offsets)
    requires AllFit(|offsets|, a)
    requires AllFit(|offsets|, b)
    requires AllFit(|offsets|, c)
    requires Candidates(text, offsets, a, opts, stem, words) == []
    requires Candidates(text, offsets, b, opts, stem, words) == [cb]
    requires Candidates(text, offsets, c, opts, stem, words) == [cc]
    ensures AllFit(|offsets|, a + b + c)
    ensures Candidates(text, offsets, a + b + c, opts, stem, words) == [cb, cc]
  {
    CandidatesAppend(text, offsets, a, b, opts, stem, words);
    CandidatesAppend(text, offsets, a + b, c, opts, stem, words);
    EmptyAppend([cb]);
    JoinTwo(cb, cc);
  }

  /** Two runs of windows of which the first gives no candidate and the second one. */
  lemma KeptLast(text: string, offsets: seq<Range>, a: seq<Window>, b: seq<Window>, opts: Options,
                 stem: string -> string, words: set<string>, cb: Candidate)
    requires IsLayout(text, offsets)
    requires AllFit(|offsets|, a)
    requires AllFit(|offsets|, b)
    requires Candidates(text, offsets, a, opts, stem, words) == []
    requires Candidates(text, offsets, b, opts, stem, words) == [cb]
    ensures AllFit(|offsets|, a + b)
    ensures Candidates(text, offsets, a + b, opts, stem, words) == [cb]
  {
    CandidatesAppend(text, offsets, a, b, opts, stem, words);
    EmptyAppend([cb]);
  }

  lemma EmptyAppend<T>(a: seq<T>)
    ensures [] + a == a
  {
  }

  lemma JoinTwo<T>(a: T, b: T)
    ensures [a] + [b] == [a, b]
  {
  }

  lemma JoinThree<T>(a: T, b: T, c: T)
    ensures [a] + [b] + [c] == [a, b, c]
  {
  }

  lemma JoinTwoOne<T>(a: T, b: T, c: T)
    ensures [a, b] + [c] == [a, b, c]
  {
  }

  lemma OneWindow(text: string, offsets: seq<Range>, w: Window, opts: Options, stem: string -> string,
                  words: set<string>, cs: seq<Candidate>)
    requires IsLayout(text, offsets) && Fits(|offsets|, w)
    requires cs == if IsStopSpan(RawSpan(text, offsets, w), words) then []
                   else [Candidate(QueryOf(text, offsets, w, opts, stem), SpanRange(offsets, w))]
    ensures Candidates(text, offsets, [w], opts, stem, words) == cs
  {
    assert [w][..0] == [];
  }

  /** The candidates of two runs of windows one after the other are those of the first run
      followed by those of the second. */
  lemma {:induction false} CandidatesAppend(text: string, offsets: seq<Range>, ws: seq<Window>, vs: seq<Window>,
                                            opts: Options, stem: string -> string, words: set<string>)
    requires IsLayout(text, offsets)
    requires AllFit(|offsets|, ws)
    requires AllFit(|offsets|, vs)
    ensures AllFit(|offsets|, ws + vs)
    ensures Candidates(text, offsets, ws + vs, opts, stem, words)
            == Candidates(text, offsets, ws, opts, stem, words) + Candidates(text, offsets, vs, opts, stem, words)
    decreases |vs|
  {
    if vs == [] {
      AppendEmpty(ws);
    } else {
      var init, w := vs[..|vs| - 1], vs[|vs| - 1];
      var before := Candidates(text, offsets, ws, opts, stem, words);
      var middle := Candidates(text, offsets, init, opts, stem, words);
      var kept := Kept(text, offsets, w, opts, stem, words);
      SnocSplit(vs);
      SnocAssoc(ws, init, w);
      CandidatesAppend(text, offsets, ws, init, opts, stem, words);
      CandidatesSnoc(text, offsets, ws + init, w, opts, stem, words);
      CandidatesSnoc(text, offsets, init, w, opts, stem, words);
      AppendAssoc(before, middle, kept);
    }
  }

  lemma AppendEmpty<T>(a: seq<T>)
    ensures a + [] == a
  {
  }

  lemma SnocAssoc<T>(a: seq<T>, b: seq<T>, x: T)
    ensures a + (b + [x]) == (a + b) + [x]
  {
  }

  /** A listed word in lower case is a stop span. */
  lemma StopWordSpan(q: string, words: set<string>)
    requires q in words && forall i :: 0 <= i < |q| ==> 'a' <= q[i] <= 'z'
    ensures IsStopSpan(q, words)
  {
    LowerCaseKept(q);
  }

  /** Lower-case words separated by single spaces, not listed and not starting with an article,
      are not a stop span. */
  lemma PlainSpan(q: string, words: set<string>)
    requires 2 <= |q| && 'a' <= q[0] <= 'z' && 'a' <= q[|q| - 1] <= 'z'
    requires forall i :: 0 <= i < |q| ==> 'a' <= q[i] <= 'z' || q[i] == ' '
    requires q !in words && !StartsWith(q, "the ") && !StartsWith(q, "a ") && !StartsWith(q, "an ")
    ensures !IsStopSpan(q, words)
  {
    LowerCaseKept(q);
  }

  /** `downcase` leaves lower-case letters and spaces as they are. */
  lemma LowerCaseKept(s: string)
    requires forall i :: 0 <= i < |s| ==> 'a' <= s[i] <= 'z' || s[i] == ' '
    ensures Downcase(s) == s
  {
    assert forall i :: 0 <= i < |s| ==> Downcase(s)[i] == s[i];
  }

  /** `tokenize`: every token of the split, looked up with `text.index(token, abs_pos)` from the
      end of the previous one. Each recorded range holds its token, and the ranges increase
      without overlapping. */
  method Tokenize(text: string) returns (offsets: seq<Range>)
    ensures offsets == Spans(text) && IsLayout(text, offsets)
  {
    var tokens := Tokens(text);
    ghost var spans := Spans(text);
    offsets := [];
    var absPos := 0;
    for i := 0 to |tokens|
      invariant offsets == spans[..i]
      invariant absPos == if offsets == [] then 0 else Last(offsets).end
    {
      var r := FindToken(text, tokens[i], absPos, i);
      assert spans[..i + 1] == spans[..i] + [r];
      offsets := offsets + [r];
      absPos := r.end;
    }
    assert spans[..|tokens|] == spans;
    SpansTokenized(text);
  }

  /** One step of `tokenize`: `text.index(token, abs_pos)` finds token `i` where the split
      took it from, so the range recorded for it is its span. */
  method FindToken(text: string, t: string, absPos: nat, ghost i: nat) returns (r: Range)
    requires i < |Spans(text)| && t == Tokens(text)[i]
    requires absPos == if i == 0 then 0 else Spans(text)[i - 1].end
    ensures r == Spans(text)[i]
  {
    TokenFound(text, i);
    var cur := IndexFrom(text, t, absPos);
    r := Range(cur.value, cur.value + |t|);
  }

  /** `stem_it`: the stems of tokens `b` up to `e`, with the text between them copied. */
  method StemIt(text: string, offsets: seq<Range>, b: nat, e: nat, stem: string -> string) returns (query: string)
    requires IsLayout(text, offsets) && b <= e <= |offsets|
    ensures query == Stemmed(text, offsets, b, e, stem)
  {
    query := "";
    for t := b to e
      invariant query == Stemmed(text, offsets, b, t, stem)
    {
      query := StemToken(text, offsets, b, t, query, stem);
    }
  }

  /** The body of the loop of `stem_it`: the text since the previous token, then the stem of
      token `t`. */
  method StemToken(text: string, offsets: seq<Range>, b: nat, t: nat, query0: string, stem: string -> string)
    returns (query: string)
    requires IsLayout(text, offsets) && b <= t < |offsets| && query0 == Stemmed(text, offsets, b, t, stem)
    ensures query == Stemmed(text, offsets, b, t + 1, stem)
  {
    StemmedNext(text, offsets, b, t, t + 1, stem);
    query := query0;
    if t > b {
      query := query + text[offsets[t - 1].end..offsets[t].begin];
    }
    query := query + stem(text[offsets[t].begin..offsets[t].end]);
  }

  /** The inner loop of `to_trie` for one span length: every start `0..n-len` in turn. */
  method RecordWindows(text: string, offsets: seq<Range>, len: nat, ghost done: seq<Window>,
                       trie0: map<string, seq<Range>>, opts: Options, stem: string -> string, words: set<string>)
    returns (trie: map<string, seq<Range>>)
    requires IsLayout(text, offsets) && 1 <= len && AllFit(|offsets|, done)
    requires trie0 == Grouped(Candidates(text, offsets, done, opts, stem, words))
    ensures trie == Grouped(Candidates(text, offsets, done + Windows(|offsets|, len), opts, stem, words))
  {
    trie := trie0;
    var beg := 0;
    PrefixNone(done, Windows(|offsets|, len));
    while beg + len <= |offsets|
      invariant StartsRecorded(text, offsets, len, done, beg, trie, opts, stem, words)
      decreases |offsets| - beg
    {
      trie := RecordWindow(text, offsets, len, done, beg, trie, opts, stem, words);
      beg := beg + 1;
    }
    PrefixAll(Windows(|offsets|, len), beg);
  }

  lemma PrefixNone<T>(a: seq<T>, b: seq<T>)
    ensures a + b[..0] == a
  {
  }

  lemma PrefixAll<T>(a: seq<T>, i: int)
    requires i == |a|
    ensures a[..i] == a
  {
  }

  /** The windows of `len` tokens starting before `beg` have been recorded after `done`. */
  predicate StartsRecorded(text: string, offsets: seq<Range>, len: nat, done: seq<Window>, beg: nat,
                           trie: map<string, seq<Range>>, opts: Options, stem: string -> string, words: set<string>)
  {
    && IsLayout(text, offsets) && 1 <= len && beg <= |Windows(|offsets|, len)|
    && AllFit(|offsets|, done + Windows(|offsets|, len)[..beg])
    && trie == Grouped(Candidates(text, offsets, done + Windows(|offsets|, len)[..beg], opts, stem, words))
  }

  /** The body of the inner loop of `to_trie`: the raw span of the window of `len` tokens at `beg`
      is skipped when it is a stop span, and otherwise its query string is recorded with the
      window's range. */
  method RecordWindow(text: string, offsets: seq<Range>, len: nat, ghost done: seq<Window>, beg: nat,
                      trie0: map<string, seq<Range>>, opts: Options, stem: string -> string, words: set<string>)
    returns (trie: map<string, seq<Range>>)
    requires beg + len <= |offsets| && StartsRecorded(text, offsets, len, done, beg, trie0, opts, stem, words)
    ensures StartsRecorded(text, offsets, len, done, beg + 1, trie, opts, stem, words)
  {
    ghost var ws := done + Windows(|offsets|, len)[..beg];
    var w := Window(beg, len);
    NextWindow(|offsets|, len, beg, done, ws);
    SpanInText(text, offsets, w);
    var q := text[offsets[w.beg].begin..offsets[w.beg + w.len - 1].end];
    if IsStopSpan(q, words) {
      WindowSkipped(text, offsets, ws, w, opts, stem, words);
      trie := trie0;
    } else {
      WindowKept(text, offsets, ws, w, opts, stem, words);
      q := Normalized(text, offsets, w, q, opts, stem);
      var c := Candidate(q, Range(offsets[w.beg].begin, offsets[w.beg + w.len - 1].end));
      trie := AddRange(trie0, c.query, c.range);
      GroupedSnoc(Candidates(text, offsets, ws, opts, stem, words), c);
    }
  }

  /** The raw span of a window lies in the text. */
  lemma SpanInText(text: string, offsets: seq<Range>, w: Window)
    requires IsLayout(text, offsets) && Fits(|offsets|, w)
    ensures offsets[w.beg].begin <= offsets[w.beg + w.len - 1].end <= |text|
    ensures RawSpan(text, offsets, w) == text[offsets[w.beg].begin..offsets[w.beg + w.len - 1].end]
  {
  }

  /** A window whose raw span is a stop span adds no candidate. */
  lemma WindowSkipped(text: string, offsets: seq<Range>, ws: seq<Window>, w: Window, opts: Options,
                      stem: string -> string, words: set<string>)
    requires IsLayout(text, offsets) && Fits(|offsets|, w) && AllFit(|offsets|, ws)
    requires IsStopSpan(RawSpan(text, offsets, w), words)
    ensures Candidates(text, offsets, ws + [w], opts, stem, words) == Candidates(text, offsets, ws, opts, stem, words)
  {
    CandidatesSnoc(text, offsets, ws, w, opts, stem, words);
  }

  /** Any other window adds its query string with its range. */
  lemma WindowKept(text: string, offsets: seq<Range>, ws: seq<Window>, w: Window, opts: Options,
                   stem: string -> string, words: set<string>)
    requires IsLayout(text, offsets) && Fits(|offsets|, w) && AllFit(|offsets|, ws)
    requires !IsStopSpan(RawSpan(text, offsets, w), words)
    ensures Candidates(text, offsets, ws + [w], opts, stem, words)
            == Candidates(text, offsets, ws, opts, stem, words)
               + [Candidate(QueryOf(text, offsets, w, opts, stem), Range(offsets[w.beg].begin, offsets[w.beg + w.len - 1].end))]
  {
    CandidatesSnoc(text, offsets, ws, w, opts, stem, words);
  }

  /** `trie[query] = trie[query] + [range]`, starting from an empty list for a new query. */
  method AddRange(trie0: map<string, seq<Range>>, query: string, range: Range) returns (trie: map<string, seq<Range>>)
    ensures trie == Record(trie0, Candidate(query, range))
  {
    var value := if query in trie0 then trie0[query] else [];
    value := value + [range];
    trie := trie0[query := value];
  }

  /** The transforms of `to_trie` on the raw span of a window: stem, then lower-case, then
      replace `-` by a space, each as its flag says. */
  method Normalized(text: string, offsets: seq<Range>, w: Window, raw: string, opts: Options, stem: string -> string)
    returns (q: string)
    requires IsLayout(text, offsets) && Fits(|offsets|, w) && raw == RawSpan(text, offsets, w)
    ensures q == QueryOf(text, offsets, w, opts, stem)
  {
    q := raw;
    if opts.stemming {
      q := StemIt(text, offsets, w.beg, w.beg + w.len, stem);
    }
    if opts.caseInsensitive {
      q := Downcase(q);
    }
    if opts.replaceHyphen {
      q := ReplaceChar(q, '-', ' ');
    }
  }

  /** `TEXT_TO_TRIE`: the span lengths and the stop-word list are fixed when it is built. */
  class TextToTrie {
    const minTokens: int
    const maxTokens: int
    const stopWords: set<string>

    constructor(minTokens: int, maxTokens: int)
      ensures this.minTokens == minTokens && this.maxTokens == maxTokens
      ensures stopWords == StopWords
    {
      this.minTokens := minTokens;
      this.maxTokens := maxTokens;
      stopWords := StopWords;
    }

    /** `to_trie`. A length range that starts at 0 or below and is not empty makes the source read
        past the last token (`offsets[n]` is nil) and raise. */
    method ToTrie(text: string, opts: Options, stem: string -> string) returns (r: Result<map<string, seq<Range>>>)
      ensures minTokens <= 0 && minTokens <= maxTokens <==> r.Failure?
      ensures r.Success? ==> r.value == TrieOf(text, if minTokens < 1 then 1 else minTokens, maxTokens, opts, stem, stopWords)
    {
      if minTokens <= 0 && minTokens <= maxTokens {
        return Failure("undefined method `[]' for nil:NilClass");
      }
      var offsets := Tokenize(text);
      var trie := RecordLengths(text, offsets, opts, stem);
      r := Success(trie);
    }

    /** The outer loop of `to_trie`: every span length `minTokens..maxTokens` in turn. */
    method RecordLengths(text: string, offsets: seq<Range>, opts: Options, stem: string -> string)
      returns (trie: map<string, seq<Range>>)
      requires IsLayout(text, offsets) && (1 <= minTokens || maxTokens < minTokens)
      ensures trie == Grouped(Candidates(text, offsets, Enumerated(|offsets|, if minTokens < 1 then 1 else minTokens, maxTokens),
                                         opts, stem, stopWords))
    {
      var n := |offsets|;
      ghost var lo := if minTokens < 1 then 1 else minTokens;
      trie := map[];
      var len := minTokens;
      assert Enumerated(n, lo, len - 1) == [];
      while len <= maxTokens
        invariant if minTokens <= maxTokens then lo <= len <= maxTokens + 1 else len == minTokens
        invariant trie == Grouped(Candidates(text, offsets, Enumerated(n, lo, len - 1), opts, stem, stopWords))
      {
        trie := RecordWindows(text, offsets, len, Enumerated(n, lo, len - 1), trie, opts, stem, stopWords);
        ghost var done := len;
        len := len + 1;
        TrieStep(text, offsets, lo, done, len, trie, opts, stem, stopWords);
      }
      EnumeratedDone(n, lo, len, minTokens, maxTokens);
    }
  }

  lemma AppendAssoc<T>(a: seq<T>, b: seq<T>, c: seq<T>)
    ensures (a + b) + c == a + (b + c)
  {
  }

  /** One more window adds a candidate exactly when its raw span is not a stop span. */
  lemma CandidatesSnoc(text: string, offsets: seq<Range>, ws: seq<Window>, w: Window, opts: Options,
                       stem: string -> string, words: set<string>)
    requires IsLayout(text, offsets) && Fits(|offsets|, w) && AllFit(|offsets|, ws)
    ensures AllFit(|offsets|, ws + [w])
    ensures Candidates(text, offsets, ws + [w], opts, stem, words) ==
            Candidates(text, offsets, ws, opts, stem, words) + Kept(text, offsets, w, opts, stem, words)
  {
    assert (ws + [w])[..|ws|] == ws;
  }

  /** One more span length appends its windows to those already visited. */
  lemma TrieStep(text: string, offsets: seq<Range>, lo: int, len: int, next: int, trie: map<string, seq<Range>>,
                 opts: Options, stem: string -> string, words: set<string>)
    requires IsLayout(text, offsets) && 1 <= lo <= len && next == len + 1
    requires trie == Grouped(Candidates(text, offsets, Enumerated(|offsets|, lo, len - 1) + Windows(|offsets|, len), opts, stem, words))
    ensures trie == Grouped(Candidates(text, offsets, Enumerated(|offsets|, lo, next - 1), opts, stem, words))
  {
    assert next - 1 == len;
    assert Enumerated(|offsets|, lo, len) == Enumerated(|offsets|, lo, len - 1) + Windows(|offsets|, len);
  }

  lemma EnumeratedDone(n: nat, lo: int, len: int, minTokens: int, maxTokens: int)
    requires lo == if minTokens < 1 then 1 else minTokens
    requires maxTokens < len && (len == minTokens || len == maxTokens + 1)
    ensures Enumerated(n, lo, len - 1) == Enumerated(n, lo, maxTokens)
  {
  }

  /** The next start of the inner loop gives a window that fits, and the windows visited so far
      grow by it. */
  lemma NextWindow(n: nat, len: nat, beg: nat, done: seq<Window>, ws: seq<Window>)
    requires 1 <= len && beg < |Windows(n, len)| && ws == done + Windows(n, len)[..beg] && AllFit(n, ws)
    ensures Fits(n, Window(beg, len)) && AllFit(n, ws + [Window(beg, len)])
    ensures ws + [Window(beg, len)] == done + Windows(n, len)[..beg + 1]
  {
    WindowsPrefix(n, len, beg);
    AppendSnoc(done, Windows(n, len)[..beg], Window(beg, len));
  }

  lemma WindowsPrefix(n: nat, len: nat, beg: nat)
    requires 1 <= len && beg < |Windows(n, len)|
    ensures Windows(n, len)[..beg + 1] == Windows(n, len)[..beg] + [Window(beg, len)]
  {
  }

  lemma AppendSnoc<T>(a: seq<T>, b: seq<T>, x: T)
    ensures a + (b + [x]) == (a + b) + [x]
  {
  }

  lemma GroupedSnoc(cs: seq<Candidate>, c: Candidate)
    ensures Grouped(cs + [c]) == Record(Grouped(cs), c)
  {
    assert (cs + [c])[..|cs|] == cs;
  }
}
