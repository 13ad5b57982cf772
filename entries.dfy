/** The Entry record of entry.rb and its class-level helpers: entry modes and validations, the
    dictionary-upload line parser, the tag-list parser, and the regrouping of one batch of analyzer
    tokens into one normalised string per input text. */
module Entries {
  import opened Outcomes
  import opened RubyText
  import opened Seqs

  /** Position increment the analyzer leaves between two texts of one batch. */
  const IncrementNumPerText: int := 100

  /** The analyzers that the entry index settings declare. */
  const Analyzers: set<string> := {"normalizer1", "normalizer2", "normalizer1_ko", "normalizer2_ko",
                                   "normalizer1_ja", "normalizer2_ja"}

  /** The curation state of an entry. */
  datatype Mode = Gray | White | Black | AutoExpanded

  /** One vocabulary term. `norm1`/`norm2` are nil when the normaliser gave nothing for the row. */
  datatype Entry = Entry(surface: string, identifier: string, norm1: Option<string>, norm2: Option<string>,
                         labelLength: nat, mode: Mode, dirty: bool, tags: seq<string>, score: Option<real>)
  {
    /** `is_white?` */
    predicate IsWhite() { mode == White }

    /** `is_black?` */
    predicate IsBlack() { mode == Black }

    /** scope `active`: the entries that go into the approximate index. */
    predicate IsActive() { mode == Gray || mode == White }

    /** scope `additional_entries`: confirmed entries not compiled yet. */
    predicate IsAdditional() { mode == White && dirty }
  }

  /** The model validations: label and identifier present, score nil or in [0, 1). */
  predicate IsValid(e: Entry) {
    !IsBlank(e.surface) && !IsBlank(e.identifier) && (e.score.None? || 0.0 <= e.score.value < 1.0)
  }

  /** `tag_values`: the tags joined with `|`. */
  function TagValues(tags: seq<string>): string {
    Join(tags, '|')
  }

  predicate IsAlnumWord(w: string) {
    w != [] && forall k :: 0 <= k < |w| ==> IsAlnum(w[k])
  }

  /** `/^([a-zA-Z0-9]+)(\|[a-zA-Z0-9]+)*$/` as a whole-string match: non-empty alphanumeric
      words separated by single bars. */
  predicate IsTagList(s: string) {
    forall i :: 0 <= i < |Fields(s, {'|'})| ==> IsAlnumWord(Fields(s, {'|'})[i])
  }

  /** `get_tags`: no tags for a missing or blank argument, ArgumentError for a string that is not
      a tag list, otherwise its bar-separated words, which `tag_values` joins back into it. */
  function GetTags(tags: Option<string>): (r: Result<seq<string>>)
    ensures tags.None? || IsBlank(tags.value) ==> r == Success([])
    ensures r.Failure? <==> tags.Some? && !IsBlank(tags.value) && !IsTagList(tags.value)
    ensures r.Success? && tags.Some? && !IsBlank(tags.value) ==> TagValues(r.value) == tags.value
    ensures r.Success? ==> forall i :: 0 <= i < |r.value| ==> IsAlnumWord(r.value[i])
  {
    if tags.None? || IsBlank(tags.value) then Success([])
    else if !IsTagList(tags.value) then Failure("invalid tags")
    else
      JoinFields(tags.value, '|');
      Success(Split(tags.value, {'|'}))
  }

  /** Every list of alphanumeric tags survives `tag_values` followed by `get_tags`. */
  lemma TagsRoundTrip(tags: seq<string>)
    requires forall i :: 0 <= i < |tags| ==> IsAlnumWord(tags[i])
    ensures GetTags(Some(TagValues(tags))) == Success(tags)
  {
    if tags != [] {
      FieldsJoin(tags, '|', {'|'});
      var s := TagValues(tags);
      assert s[0] == tags[0][0] by {
        if |tags| > 1 { assert s == tags[0] + ['|'] + Join(tags[1..], '|'); }
      }
      assert !IsBlank(s) by { assert !IsBlankChar(s[0]); }
      assert IsTagList(s);
    }
  }

  /** One line of an uploaded dictionary file: label, identifier and tags. */
  datatype RawEntry = RawEntry(surface: string, identifier: string, tags: seq<string>)

  /** The lines `read_entry_line` skips before it looks at the tags: blank lines, comments, lines
      with fewer than two tab-separated fields, a label outside 2..127 characters, an empty
      identifier or one longer than 255 characters. `l` is the stripped line. */
  predicate IsSkippedLine(l: string) {
    || l == [] || l[0] == '#'
    || var items := Split(l, {'\t'});
       |items| < 2 || |items[0]| < 2 || |items[0]| > 127 || items[1] == [] || |items[1]| > 255
  }

  /** The tag column of a split line, if there is one. */
  function TagField(items: seq<string>): Option<string> {
    if |items| > 2 then Some(items[2]) else None
  }

  /** `read_entry_line`: nil (`Success(None)`) exactly for the skipped lines; otherwise the tag
      parser's ArgumentError, or the first two tab fields with the tags parsed from the third. */
  function ReadEntryLine(line: string): (r: Result<Option<RawEntry>>)
    ensures r == Success(None) <==> IsSkippedLine(Strip(line))
    ensures r.Failure? <==>
              !IsSkippedLine(Strip(line)) && GetTags(TagField(Split(Strip(line), {'\t'}))).Failure?
    ensures r.Success? && r.value.Some? ==>
              var items := Split(Strip(line), {'\t'});
              r.value.value == RawEntry(items[0], items[1], GetTags(TagField(items)).value)
    ensures r.Success? && r.value.Some? ==>
              var e := r.value.value;
              && 2 <= |e.surface| <= 127 && 1 <= |e.identifier| <= 255
              && '\t' !in e.surface && '\t' !in e.identifier
              && StartsWith(Strip(line), e.surface + ['\t'] + e.identifier)
              && (forall i :: 0 <= i < |e.tags| ==> IsAlnumWord(e.tags[i]))
  {
    var l := Strip(line);
    if l == [] then Success(None)
    else if l[0] == '#' then Success(None)
    else
      var items := Split(l, {'\t'});
      if |items| < 2 then Success(None)
      else if |items[0]| < 2 || |items[0]| > 127 then Success(None)
      else if items[0] == [] || items[1] == [] then Success(None)
      else if |items[1]| > 255 then Success(None)
      else
        var tags :- GetTags(if |items| > 2 then Some(items[2]) else None);
        ReadEntryLinePrefix(l);
        Success(Some(RawEntry(items[0], items[1], tags)))
  }

  lemma ReadEntryLinePrefix(l: string)
    requires |Split(l, {'\t'})| >= 2
    ensures var items := Split(l, {'\t'});
            StartsWith(l, items[0] + ['\t'] + items[1]) && '\t' !in items[0] && '\t' !in items[1]
  {
    var fs := Fields(l, {'\t'});
    JoinFields(l, '\t');
    assert Join(fs, '\t') == fs[0] + ['\t'] + fs[1] + (if |fs| > 2 then ['\t'] + Join(fs[2..], '\t') else []) by {
      assert Join(fs, '\t') == fs[0] + ['\t'] + Join(fs[1..], '\t');
      if |fs| > 2 {
        assert Join(fs[1..], '\t') == fs[1] + ['\t'] + Join(fs[2..], '\t');
      }
    }
    assert '\t' !in fs[0] && '\t' !in fs[1];
  }

  /** A field that a tab-separated export writes without escaping: no tab, quote or line break. */
  predicate IsPlainField(s: string) {
    forall k :: 0 <= k < |s| ==> s[k] != '\t' && s[k] != '"' && s[k] != '\n' && s[k] != '\r'
  }

  /** How `CSV.generate` writes a plain field: verbatim, except that an empty string is written
      as a pair of quotes (the writer's `quote_empty` default). */
  function CsvField(s: string): (r: string)
    ensures s != [] ==> r == s
    ensures s == [] ==> |r| == 2 && r[0] == '"' && r[1] == '"'
  {
    if s == [] then "\"\"" else s
  }

  /** One data row of `as_tsv` (`label`, `identifier`, `tag_values` separated by tabs) for plain
      fields, as the CSV writer produces it: the empty tag values of an entry without tags are
      written as `""`. */
  function TsvLine(e: RawEntry): string {
    CsvField(e.surface) + ['\t'] + CsvField(e.identifier) + ['\t'] + CsvField(TagValues(e.tags))
  }

  /** The export row with the empty tag column written as an empty field, as a writer that
      passes `nil` for missing tag values produces it. */
  function CorrectedTsvLine(e: RawEntry): string {
    e.surface + ['\t'] + e.identifier + ['\t'] + TagValues(e.tags)
  }

  /** What the upload parser accepts back from an export row. */
  predicate IsUploadable(e: RawEntry) {
    && IsPlainField(e.surface) && 2 <= |e.surface| <= 127 && !IsStrippable(e.surface[0]) && e.surface[0] != '#'
    && IsPlainField(e.identifier) && 1 <= |e.identifier| <= 255 && !IsStrippable(e.identifier[|e.identifier| - 1])
    && forall i :: 0 <= i < |e.tags| ==> IsAlnumWord(e.tags[i])
  }

  lemma TrimEndTab(s: string)
    requires s != [] && !IsStrippable(s[|s| - 1])
    ensures TrimEnd(s + ['\t']) == s
  {
    assert (s + ['\t'])[..|s|] == s;
  }

  /** Both export rows agree for an entry with tags; without tags they differ in the tag column. */
  lemma TsvLineCases(e: RawEntry)
    requires IsUploadable(e)
    ensures e.tags != [] ==> TsvLine(e) == CorrectedTsvLine(e)
    ensures e.tags == [] ==> TsvLine(e) == e.surface + ['\t'] + e.identifier + ['\t'] + "\"\""
  {
    if e.tags != [] {
      TagValuesEnd(e.tags);
    }
  }

  lemma StripTsvLine(e: RawEntry)
    requires IsUploadable(e)
    ensures Strip(CorrectedTsvLine(e)) ==
              if e.tags == [] then e.surface + ['\t'] + e.identifier else CorrectedTsvLine(e)
    ensures e.tags == [] ==> Strip(TsvLine(e)) == TsvLine(e)
  {
    var line := CorrectedTsvLine(e);
    assert TrimStart(line) == line;
    if e.tags == [] {
      var head := e.surface + ['\t'] + e.identifier;
      assert line == head + ['\t'];
      TrimEndTab(head);
      TsvLineCases(e);
      var quoted := TsvLine(e);
      assert TrimStart(quoted) == quoted;
      assert quoted[|quoted| - 1] == '"';
    } else {
      TagValuesEnd(e.tags);
      assert line[|line| - 1] == TagValues(e.tags)[|TagValues(e.tags)| - 1];
    }
  }

  /** Three tab-free fields joined by tabs split back into those fields. */
  lemma FieldsOfRow(a: string, b: string, c: string)
    requires '\t' !in a && '\t' !in b && '\t' !in c
    ensures Fields(a + ['\t'] + b + ['\t'] + c, {'\t'}) == [a, b, c]
    ensures Fields(a + ['\t'] + b, {'\t'}) == [a, b]
  {
    FieldsWithoutSeparator(c, {'\t'});
    FieldsWithoutSeparator(b, {'\t'});
    FieldsAfterSeparator(b, '\t', c, {'\t'});
    assert a + ['\t'] + b + ['\t'] + c == a + ['\t'] + (b + ['\t'] + c);
    FieldsAfterSeparator(a, '\t', b + ['\t'] + c, {'\t'});
    FieldsAfterSeparator(a, '\t', b, {'\t'});
  }

  lemma FieldsOfTsvLine(e: RawEntry)
    requires IsUploadable(e)
    ensures Fields(CorrectedTsvLine(e), {'\t'}) == [e.surface, e.identifier, TagValues(e.tags)]
    ensures Fields(e.surface + ['\t'] + e.identifier, {'\t'}) == [e.surface, e.identifier]
  {
    var tv := TagValues(e.tags);
    forall k | 0 <= k < |tv| ensures tv[k] != '\t' {
      TagValuesChars(e.tags, k);
    }
    assert '\t' !in e.surface && '\t' !in e.identifier;
    FieldsOfRow(e.surface, e.identifier, tv);
  }

  /** A tag column holding only an ideographic space is blank for `present?`, so it gives no tags
      even though `strip` keeps it. */
  lemma IdeographicSpaceTags()
    ensures Strip("\U{3000}") == "\U{3000}"
    ensures GetTags(Some("\U{3000}")) == Success([])
  {
    var t: string := "\U{3000}";
    assert IsBlankChar(t[0]) && IsBlank(t);
    StripUnchanged(t);
  }

  /** A quoted empty field is not a tag list. */
  lemma QuotedEmptyTags()
    ensures GetTags(Some("\"\"")) == Failure("invalid tags")
  {
    var quoted: string := "\"\"";
    FieldsWithoutSeparator(quoted, {'|'});
    assert !IsAlnumWord(Fields(quoted, {'|'})[0]);
    assert !IsBlankChar(quoted[0]);
  }

  lemma TaglessRowFields(e: RawEntry)
    requires IsUploadable(e)
    ensures Fields(e.surface + ['\t'] + e.identifier + ['\t'] + "\"\"", {'\t'}) == [e.surface, e.identifier, "\"\""]
  {
    var quoted: string := "\"\"";
    assert '\t' !in e.surface && '\t' !in e.identifier && '\t' !in quoted;
    FieldsOfRow(e.surface, e.identifier, quoted);
  }

  lemma TaglessTsvLineFields(e: RawEntry)
    requires IsUploadable(e) && e.tags == []
    ensures Split(Strip(TsvLine(e)), {'\t'}) == [e.surface, e.identifier, "\"\""]
  {
    StripTsvLine(e);
    TsvLineCases(e);
    TaglessRowFields(e);
    var fs := Fields(Strip(TsvLine(e)), {'\t'});
    assert DropTrailingEmpty(fs) == fs by { assert fs[|fs| - 1] != []; }
  }

  /** As written, an exported entry without tags cannot be uploaded again: its quoted empty tag
      column is not a tag list, so the parser raises. */
  lemma TaglessTsvLineRejected(e: RawEntry)
    requires IsUploadable(e) && e.tags == []
    ensures ReadEntryLine(TsvLine(e)) == Failure("invalid tags")
  {
    TaglessTsvLineFields(e);
    QuotedEmptyTags();
  }

  lemma CorrectedTaglessFields(e: RawEntry)
    requires IsUploadable(e) && e.tags == []
    ensures Split(Strip(CorrectedTsvLine(e)), {'\t'}) == [e.surface, e.identifier]
  {
    StripTsvLine(e);
    FieldsOfTsvLine(e);
    var fs := Fields(Strip(CorrectedTsvLine(e)), {'\t'});
    assert DropTrailingEmpty(fs) == fs by { assert fs[|fs| - 1] != []; }
  }

  lemma TaggedTsvLineFields(e: RawEntry)
    requires IsUploadable(e) && e.tags != []
    ensures Split(Strip(TsvLine(e)), {'\t'}) == [e.surface, e.identifier, TagValues(e.tags)]
  {
    TsvLineCases(e);
    StripTsvLine(e);
    FieldsOfTsvLine(e);
    TagValuesEnd(e.tags);
    var fs := Fields(Strip(TsvLine(e)), {'\t'});
    assert DropTrailingEmpty(fs) == fs by { assert fs[|fs| - 1] != []; }
  }

  lemma TsvLineRoundTripWithoutTags(e: RawEntry)
    requires IsUploadable(e) && e.tags == []
    ensures ReadEntryLine(CorrectedTsvLine(e)) == Success(Some(e))
  {
    CorrectedTaglessFields(e);
  }

  /** Every export row of an entry with tags is read back into that entry. */
  lemma TsvLineRoundTripWithTags(e: RawEntry)
    requires IsUploadable(e) && e.tags != []
    ensures ReadEntryLine(TsvLine(e)) == Success(Some(e))
  {
    TaggedTsvLineFields(e);
    TagsRoundTrip(e.tags);
  }

  /** The upload parser reads the corrected export row back into the entry it was written from. */
  lemma CorrectedTsvLineRoundTrip(e: RawEntry)
    requires IsUploadable(e)
    ensures ReadEntryLine(CorrectedTsvLine(e)) == Success(Some(e))
  {
    if e.tags == [] {
      TsvLineRoundTripWithoutTags(e);
    } else {
      TsvLineCases(e);
      TsvLineRoundTripWithTags(e);
    }
  }

  lemma {:induction false} TagValuesEnd(tags: seq<string>)
    requires tags != [] && forall i :: 0 <= i < |tags| ==> IsAlnumWord(tags[i])
    ensures var s := TagValues(tags); s != [] && IsAlnum(s[|s| - 1])
  {
    if |tags| > 1 {
      TagValuesEnd(tags[1..]);
    }
  }

  lemma {:induction false} TagValuesChars(tags: seq<string>, k: nat)
    requires forall i :: 0 <= i < |tags| ==> IsAlnumWord(tags[i])
    requires k < |TagValues(tags)|
    ensures var c := TagValues(tags)[k]; IsAlnum(c) || c == '|'
  {
    if |tags| > 1 {
      var s := TagValues(tags);
      assert s == tags[0] + ['|'] + TagValues(tags[1..]);
      if k > |tags[0]| {
        TagValuesChars(tags[1..], k - |tags[0]| - 1);
      }
    }
  }

  /** One token of the analyzer's answer for a batch of texts. */
  datatype AnalyzedToken = AnalyzedToken(token: string, position: int)

  predicate AllNonEmpty(cs: seq<seq<AnalyzedToken>>) {
    forall i :: 0 <= i < |cs| ==> cs[i] != []
  }

  /** `chunk_while { |a, b| b.position - a.position <= 100 }`. */
  function Chunks(ts: seq<AnalyzedToken>): (cs: seq<seq<AnalyzedToken>>)
    ensures AllNonEmpty(cs)
    ensures Flatten(cs) == ts
    ensures ts != [] ==> cs != [] && Last(Last(cs)) == Last(ts)
  {
    if ts == [] then []
    else
      var cs := Chunks(ts[..|ts| - 1]);
      var t := Last(ts);
      assert ts == ts[..|ts| - 1] + [t];
      if cs != [] && t.position - Last(Last(cs)).position <= IncrementNumPerText then
        var init := cs[..|cs| - 1];
        assert cs == init + [Last(cs)];
        FlattenSnoc(init, Last(cs));
        FlattenSnoc(init, Last(cs) + [t]);
        init + [Last(cs) + [t]]
      else
        FlattenSnoc(cs, [t]);
        cs + [[t]]
  }

  /** Within a chunk, each token is at most 100 positions after the one before. */
  predicate IsTight(c: seq<AnalyzedToken>) {
    forall k :: 0 < k < |c| ==> c[k].position - c[k - 1].position <= IncrementNumPerText
  }

  /** Each chunk starts more than 100 positions after the end of the one before. */
  predicate AreSeparated(cs: seq<seq<AnalyzedToken>>)
    requires AllNonEmpty(cs)
  {
    forall i :: 0 < i < |cs| ==> cs[i][0].position - Last(cs[i - 1]).position > IncrementNumPerText
  }

  lemma {:induction false} ChunksAreTight(ts: seq<AnalyzedToken>)
    ensures forall i :: 0 <= i < |Chunks(ts)| ==> IsTight(Chunks(ts)[i])
  {
    if ts != [] {
      var cs := Chunks(ts[..|ts| - 1]);
      var t := Last(ts);
      ChunksAreTight(ts[..|ts| - 1]);
      var r: seq<seq<AnalyzedToken>> := Chunks(ts);
      if cs != [] && t.position - Last(Last(cs)).position <= IncrementNumPerText {
        assert r == cs[..|cs| - 1] + [Last(cs) + [t]];
        forall i | 0 <= i < |r| ensures IsTight(r[i]) {
          if i < |r| - 1 {
            assert r[i] == cs[i];
          } else {
            assert IsTight(cs[|cs| - 1]);
          }
        }
      } else {
        assert r == cs + [[t]];
        assert forall i :: 0 <= i < |cs| ==> r[i] == cs[i];
      }
    }
  }

  lemma {:induction false} ChunksAreSeparated(ts: seq<AnalyzedToken>)
    ensures AreSeparated(Chunks(ts))
  {
    if ts != [] {
      var cs := Chunks(ts[..|ts| - 1]);
      var t := Last(ts);
      ChunksAreSeparated(ts[..|ts| - 1]);
      var r: seq<seq<AnalyzedToken>> := Chunks(ts);
      if cs != [] && t.position - Last(Last(cs)).position <= IncrementNumPerText {
        assert r == cs[..|cs| - 1] + [Last(cs) + [t]];
        forall i | 0 < i < |r| ensures r[i][0].position - Last(r[i - 1]).position > IncrementNumPerText {
          assert r[i][0] == cs[i][0];
          assert r[i - 1] == cs[i - 1];
        }
      } else {
        assert r == cs + [[t]];
        forall i | 0 < i < |r| ensures r[i][0].position - Last(r[i - 1]).position > IncrementNumPerText {
          if i < |cs| {
            assert r[i] == cs[i];
            assert r[i - 1] == cs[i - 1];
          }
        }
      }
    }
  }

  /** Consecutive tokens are in one chunk exactly when their positions differ by at most 100. */
  lemma ChunksSplitAtGaps(ts: seq<AnalyzedToken>)
    ensures forall i :: 0 <= i < |Chunks(ts)| ==> IsTight(Chunks(ts)[i])
    ensures AreSeparated(Chunks(ts))
  {
    ChunksAreTight(ts);
    ChunksAreSeparated(ts);
  }

  /** `words.map { _1[:token] }.join('')` */
  function ConcatTokens(words: seq<AnalyzedToken>): string {
    if words == [] then [] else ConcatTokens(words[..|words| - 1]) + Last(words).token
  }

  lemma ConcatTokensSnoc(xs: seq<AnalyzedToken>, y: AnalyzedToken)
    ensures ConcatTokens(xs + [y]) == ConcatTokens(xs) + y.token
  {
    assert (xs + [y])[..|xs|] == xs;
  }

  lemma {:induction false} ConcatTokensAppend(xs: seq<AnalyzedToken>, ys: seq<AnalyzedToken>)
    ensures ConcatTokens(xs + ys) == ConcatTokens(xs) + ConcatTokens(ys)
  {
    if ys != [] {
      var init := ys[..|ys| - 1];
      var y := Last(ys);
      assert ys == init + [y];
      assert xs + ys == (xs + init) + [y];
      ConcatTokensAppend(xs, init);
      ConcatTokensSnoc(xs + init, y);
      ConcatTokensSnoc(init, y);
    } else {
      assert xs + ys == xs;
    }
  }

  /** The empty strings inserted for texts whose every token the analyzer removed. */
  function Padding(gap: int): seq<string> {
    if gap > 200 then seq(gap / IncrementNumPerText - 1, _ => []) else []
  }

  /** The `reduce` over chunks: the strings so far and the last position seen. */
  function Regroup(cs: seq<seq<AnalyzedToken>>): (seq<string>, int)
    requires AllNonEmpty(cs)
  {
    if cs == [] then ([], 0)
    else
      var acc := Regroup(cs[..|cs| - 1]);
      var words := Last(cs);
      (acc.0 + Padding(words[0].position - acc.1) + [ConcatTokens(words)], Last(words).position)
  }

  /** `batch_normalize` after the analyzer call: ArgumentError for an empty batch, otherwise one
      string per chunk of tokens, with padding for texts the analyzer emptied. */
  method BatchNormalize(texts: seq<string>, tokens: seq<AnalyzedToken>) returns (r: Result<seq<string>>)
    ensures texts == [] ==> r.Failure?
    ensures texts != [] ==> r == Success(Regroup(Chunks(tokens)).0)
  {
    if texts == [] {
      return Failure("Empty text in array");
    }
    var chunks := Chunks(tokens);
    var result: seq<string> := [];
    var previousPosition := 0;
    for i := 0 to |chunks|
      invariant result == Regroup(chunks[..i]).0
      invariant previousPosition == Regroup(chunks[..i]).1
    {
      var words := chunks[i];
      RegroupStep(chunks, i);
      if words[0].position - previousPosition > 200 {
        var skippedTextsCount := (words[0].position - previousPosition) / IncrementNumPerText - 1;
        result := AppendEmptyStrings(result, skippedTextsCount);
      }
      previousPosition := words[|words| - 1].position;
      result := result + [ConcatTokens(words)];
    }
    assert chunks[..|chunks|] == chunks;
    return Success(result);
  }

  /** `count.times { result << '' }` */
  method AppendEmptyStrings(result: seq<string>, count: nat) returns (r: seq<string>)
    ensures r == result + seq(count, _ => [])
  {
    r := result;
    for k := 0 to count
      invariant r == result + seq(k, _ => [])
    {
      r := r + [[]];
    }
  }

  lemma RegroupStep(cs: seq<seq<AnalyzedToken>>, i: nat)
    requires AllNonEmpty(cs)
    requires i < |cs|
    ensures var acc := Regroup(cs[..i]);
            var gap := cs[i][0].position - acc.1;
            && Regroup(cs[..i + 1]).1 == cs[i][|cs[i]| - 1].position
            && Regroup(cs[..i + 1]).0 ==
               acc.0 + (if gap > 200 then seq(gap / IncrementNumPerText - 1, _ => []) else []) + [ConcatTokens(cs[i])]
  {
    assert cs[..i + 1][..i] == cs[..i];
  }

  lemma {:induction false} FlattenEmpties(n: nat)
    ensures Flatten<char>(seq(n, _ => [])) == []
  {
    if n > 0 {
      var xs: seq<string> := seq(n, _ => []);
      assert xs[..n - 1] == seq(n - 1, _ => []);
      FlattenEmpties(n - 1);
    }
  }

  lemma FlattenPadded(a: seq<string>, pad: seq<string>, w: string)
    requires pad == seq(|pad|, _ => [])
    ensures Flatten(a + pad + [w]) == Flatten(a) + w
  {
    FlattenAppend(a, pad);
    FlattenEmpties(|pad|);
    assert Flatten(a + pad) == Flatten(a);
    FlattenSnoc(a + pad, w);
  }

  lemma RegroupFlattenStep(cs: seq<seq<AnalyzedToken>>)
    requires AllNonEmpty(cs) && cs != []
    ensures AllNonEmpty(cs[..|cs| - 1])
    ensures Flatten(Regroup(cs).0) == Flatten(Regroup(cs[..|cs| - 1]).0) + ConcatTokens(Last(cs))
  {
    var acc := Regroup(cs[..|cs| - 1]);
    var words := Last(cs);
    var pad := Padding(words[0].position - acc.1);
    assert Regroup(cs).0 == acc.0 + pad + [ConcatTokens(words)];
    if words[0].position - acc.1 > 200 {
      FlattenPadded(acc.0, pad, ConcatTokens(words));
    } else {
      assert acc.0 + pad == acc.0;
      FlattenSnoc(acc.0, ConcatTokens(words));
    }
  }

  /** Regrouping loses, duplicates and reorders no token: the output strings, concatenated, spell
      the tokens in order. */
  lemma {:induction false} RegroupKeepsTokens(cs: seq<seq<AnalyzedToken>>)
    requires AllNonEmpty(cs)
    ensures Flatten(Regroup(cs).0) == ConcatTokens(Flatten(cs))
  {
    if cs != [] {
      var init := cs[..|cs| - 1];
      var words := Last(cs);
      RegroupFlattenStep(cs);
      RegroupKeepsTokens(init);
      assert cs == init + [words];
      FlattenSnoc(init, words);
      ConcatTokensAppend(Flatten(init), words);
    }
  }

  /** So the whole of `batch_normalize` spells the analyzer's tokens in order. */
  lemma BatchNormalizeKeepsTokens(tokens: seq<AnalyzedToken>)
    ensures Flatten(Regroup(Chunks(tokens)).0) == ConcatTokens(tokens)
  {
    RegroupKeepsTokens(Chunks(tokens));
  }

  lemma ChunksOfThree(a: AnalyzedToken, b: AnalyzedToken, c: AnalyzedToken)
    requires b.position - a.position <= IncrementNumPerText < c.position - b.position
    ensures Chunks([a, b, c]) == [[a, b], [c]]
  {
    var ts := [a, b, c];
    assert ts[..1][..0] == [];
    assert Chunks(ts[..1]) == [[a]];
    assert ts[..2][..1] == ts[..1];
    assert Chunks(ts[..2]) == [[a, b]] by {
      assert [[a]][..0] == [] && [a] + [b] == [a, b];
    }
  }

  lemma RegroupTwoChunks(x: seq<AnalyzedToken>, y: seq<AnalyzedToken>)
    requires x != [] && y != [] && x[0].position == 0
    ensures Regroup([x, y]).0 == [ConcatTokens(x)] + Padding(y[0].position - Last(x).position) + [ConcatTokens(y)]
  {
    var cs := [x, y];
    assert cs[..|cs| - 1] == [x];
    RegroupOneChunk(x);
  }

  lemma RegroupOneChunk(x: seq<AnalyzedToken>)
    requires x != [] && x[0].position == 0
    ensures Regroup([x]) == ([ConcatTokens(x)], Last(x).position)
  {
    var cs := [x];
    assert cs[..|cs| - 1] == [];
    assert Padding(x[0].position - Regroup([]).1) == [];
    assert Regroup(cs).0 == [] + [] + [ConcatTokens(x)] == [ConcatTokens(x)];
    assert Regroup(cs).1 == Last(x).position;
  }

  /** Positions 0, 1 and 203: the middle text lost all its tokens and comes back empty. */
  lemma RegroupSkippedText()
    ensures var ts := [AnalyzedToken("abc", 0), AnalyzedToken("def", 1), AnalyzedToken("ghi", 203)];
            Regroup(Chunks(ts)).0 == ["abcdef", "", "ghi"]
  {
    var a, b, c := AnalyzedToken("abc", 0), AnalyzedToken("def", 1), AnalyzedToken("ghi", 203);
    ChunksOfThree(a, b, c);
    RegroupTwoChunks([a, b], [c]);
    assert ConcatTokens([a, b]) == "abcdef" by {
      assert [a, b][..1] == [a];
      assert [a][..0] == [];
    }
    assert ConcatTokens([c]) == "ghi" by {
      assert [c][..0] == [];
    }
    assert Padding(202) == [""];
  }
}
