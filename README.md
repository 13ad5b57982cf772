# PubDictionaries core, modelled in Dafny

PubDictionaries keeps named dictionaries of terms. Each entry pairs a label with an identifier, two
normalised forms (`norm1`, typographic; `norm2`, morphosyntactic), tags and a curation mode (GRAY,
WHITE, BLACK, AUTO_EXPANDED). Curators confirm, reject and restore entries. Compiling a dictionary
builds an approximate string index from the `norm2` of its active entries and derives its stop-word
lists. Looking a term up in several dictionaries returns scored hits: either the best-scored hits
only, or every hit in descending score order. A separate generator turns a text into a trie of
candidate spans. An annotation job's result is a file whose name carries the job id.

The model is split into these modules:

- `Outcomes`: `Option` for a value that may be nil, `Result` for a call that may raise.
- `RubyText`: the Ruby `String` operations the core relies on (`strip`, `split`, `join`,
  `downcase`, `gsub(/\s+/, '_')`).
- `Seqs`: the `Array` operations the core relies on (`select`, `map`, `uniq`, `compact`, `count`).
- `Entries`: the entry record, its modes and scopes, the upload line parser and tag parser, the
  tab-separated export row, and the regrouping step of `batch_normalize`.
- `Similarity`: the circular n-grams, the Jaccard similarity and the three scoring profiles.
- `Languages`: the per-language choices of index order, measure, scorer and analyzer names.
- `StopWords`: `update_stop_words` and its three built-in word lists.
- `DictionaryParams`: reading dictionary names from request parameters, and `filename`.
- `Ranking`: the two ranking policies, top scores only and descending order.
- `Search`: a pure functional model of `search_term`, `search_term_top`, `search_term_order` and
  `find_ids_by_labels`, over a snapshot of each dictionary.
- `Dictionaries`: class `Dictionary`. Its `entries` sequence and its `entriesNum` counter are
  updated in place by the curation methods; its compile methods rebuild the index and the
  stop-word lists; its search methods are loops proved equal to the `Search` functions.
- `TextAnnotations`: class `TextToTrie` (tokenising, stop-span filtering, stemming, recording
  ranges in a trie), with its loops proved against the pure `Candidates`/`Grouped`/`TrieOf`
  definitions.
- `TextAnnotator`: class `BatchResult` (result file name, job id, path memo, status).

## Model

| member | source | states |
|---|---|---|
| RubyText.Downcase | DictionaryManager/app/controllers/text_annotations/text_to_trie.rb:109 | Keeps the length and lower-cases each character on its own (ASCII letters only). |
| RubyText.Strip | app/models/entry.rb:141 | The result neither starts nor ends with whitespace or NUL. |
| RubyText.TrimStart | app/models/entry.rb:141 | Only strippable characters are removed from the front, and the result starts with a kept character. |
| RubyText.TrimEnd | app/models/entry.rb:141 | Only strippable characters are removed from the back, and the result ends with a kept character. |
| RubyText.StripUnchanged | app/models/entry.rb:141 | `strip` leaves alone a string whose two ends are not whitespace. |
| RubyText.Fields | app/models/entry.rb:146 | There is always at least one field, and no field holds a separator. |
| RubyText.DropTrailingEmpty | app/models/entry.rb:146 | Ruby's `split` drops only the empty fields at the end. |
| RubyText.JoinFields | app/models/dictionary.rb:99 | Joining the fields of a string with its separator gives the string back. |
| RubyText.FieldsWithoutSeparator | app/models/dictionary.rb:99 | A string with no separator is a single field. |
| RubyText.FieldsAfterSeparator | app/models/dictionary.rb:99 | The text before the first separator is the first field, and the rest is split on its own. |
| RubyText.FieldsJoin | app/models/dictionary.rb:99 | Splitting a join gives back the parts, when no part holds a separator. |
| RubyText.Words | app/models/dictionary.rb:396 | `split` with no argument yields non-empty words without whitespace. |
| RubyText.Underscored | app/models/dictionary.rb:42 | `gsub(/\s+/, '_')` leaves no whitespace and never lengthens the string. |
| RubyText.ReplaceChar | DictionaryManager/app/controllers/text_annotations/text_to_trie.rb:66 | `gsub("-", " ")` keeps the length and replaces exactly the hyphens. |
| Seqs.Filter | app/models/dictionary.rb:437 | `select`/`delete_if` keeps each element's multiplicity when it passes and none when it fails. |
| Seqs.FilterSnoc | app/models/dictionary.rb:437 | Filtering a sequence with one more element at the end appends that element exactly when it passes. |
| Seqs.FilterOrder | app/models/dictionary.rb:437 | The filtered sequence is a subsequence of its input: the kept elements stay in their original order. |
| Seqs.FilterShorter | app/models/dictionary.rb:473 | Filtering drops something exactly when some element fails the test. |
| Seqs.FilterKeepsAll | app/models/dictionary.rb:473 | Filtering keeps the whole sequence exactly when every element passes. |
| Seqs.Map | app/models/dictionary.rb:124 | `map` keeps the length and applies the block at every position. |
| Seqs.Uniq | app/models/dictionary.rb:471 | `uniq` gives distinct elements, the same elements as its input. |
| Seqs.FirstIndex | app/models/dictionary.rb:471 | The position of the first occurrence of an element. |
| Seqs.UniqOrder | app/models/dictionary.rb:471 | `uniq` keeps the elements in the order of their first occurrences. |
| Seqs.Compact | app/models/dictionary.rb:638 | `compact` keeps exactly the non-nil values, and distinct inputs give distinct outputs. |
| Seqs.Count | app/models/dictionary.rb:201 | A count is zero exactly when no element passes, and full exactly when all do. |
| Seqs.CountUpdate | app/models/dictionary.rb:201 | Replacing one element changes the count by what the old and the new element contribute. |
| Seqs.CountRemove | app/models/dictionary.rb:201 | Removing one element lowers the count by what it contributed. |
| Seqs.FlattenAppend | app/models/dictionary.rb:420-422 | `reduce([], :+)` over two lists is the concatenation of the two reductions. |
| Seqs.FlattenMembership | app/models/dictionary.rb:420-422 | An element is in the concatenation exactly when it is in one of the lists. |
| Entries.GetTags | app/models/entry.rb:157-161 | No tags for a missing or blank argument. ArgumentError exactly for a string that is not a bar-separated list of alphanumeric words. Otherwise the words, which `tag_values` joins back into the argument. |
| Entries.TagsRoundTrip | app/models/entry.rb:114 | Any list of alphanumeric tags survives `tag_values` followed by `get_tags`. |
| Entries.ReadEntryLine | app/models/entry.rb:140-155 | nil exactly for a blank or comment line, fewer than two tab fields, a label outside 2 to 127 characters, or an identifier that is empty or longer than 255 characters. Otherwise the error of `get_tags` on the third field, or the first two fields with those tags. |
| Entries.ReadEntryLinePrefix | app/models/entry.rb:146 | The first two tab fields, with a tab between them, start the line. |
| Entries.CsvField | app/models/entry.rb:120 | The CSV writer keeps a non-empty plain field as it is and writes an empty one as two quotes. |
| Entries.TsvLineCases | app/models/entry.rb:116-123 | An export row with tags is the plain tab-joined row; without tags its last column is `""`. |
| Entries.StripTsvLine | app/models/entry.rb:116-123 | Stripping the corrected row only removes the trailing tab of an empty tag column, and stripping the written row of a tagless entry changes nothing. |
| Entries.FieldsOfRow | app/models/entry.rb:146 | Three tab-free fields joined by tabs split back into those fields. |
| Entries.FieldsOfTsvLine | app/models/entry.rb:116-123 | A corrected export row splits into label, identifier and tag values. |
| Entries.IdeographicSpaceTags | app/models/entry.rb:158 | A tag column holding only an ideographic space survives `strip` but is blank for `present?`, so it gives no tags. |
| Entries.QuotedEmptyTags | app/models/entry.rb:157-161 | `get_tags` raises on the quoted empty field `""`. |
| Entries.TaglessTsvLineFields | app/models/entry.rb:116-123 | The written row of a tagless entry splits into label, identifier and `""`. |
| Entries.TaglessTsvLineRejected | app/models/entry.rb:116-123 | The upload parser raises "invalid tags" on the written row of every uploadable entry without tags. |
| Entries.TsvLineRoundTripWithoutTags | app/models/entry.rb:116-123 | The corrected row of an entry without tags is read back into that entry. |
| Entries.TsvLineRoundTripWithTags | app/models/entry.rb:116-123 | The written row of an entry with tags is read back into that entry. |
| Entries.CorrectedTsvLineRoundTrip | app/models/entry.rb:116-123 | The upload parser reads every corrected export row back into the entry it was written from. |
| Entries.TagValuesEnd | app/models/entry.rb:114 | A non-empty tag list joins into a string that ends in an alphanumeric character. |
| Entries.TagValuesChars | app/models/entry.rb:114 | Every character of joined tags is alphanumeric or a bar. |
| Entries.Chunks | app/models/entry.rb:218 | `chunk_while` gives non-empty chunks that concatenate to the token list. |
| Entries.ChunksAreTight | app/models/entry.rb:218 | Within a chunk, consecutive positions differ by at most 100. |
| Entries.ChunksAreSeparated | app/models/entry.rb:218 | Each chunk starts more than 100 positions after the previous chunk ends. |
| Entries.ChunksSplitAtGaps | app/models/entry.rb:216-218 | Tokens share a chunk exactly when their positions differ by at most 100. |
| Entries.ConcatTokensAppend | app/models/entry.rb:232 | Joining tokens distributes over concatenation. |
| Entries.BatchNormalize | app/models/entry.rb:202-234 | ArgumentError for an empty batch. Otherwise one string per chunk of tokens, in order, with padding for the texts the analyzer emptied. |
| Entries.AppendEmptyStrings | app/models/entry.rb:226-228 | `count.times { result << '' }` appends exactly `count` empty strings. |
| Entries.RegroupKeepsTokens | app/models/entry.rb:219-234 | Regrouping loses, duplicates and reorders no token: the output strings, concatenated, spell the tokens in order. |
| Entries.BatchNormalizeKeepsTokens | app/models/entry.rb:218-234 | The whole of `batch_normalize` spells the analyzer's tokens in order. |
| Entries.ChunksOfThree | app/models/entry.rb:218 | A gap of more than 100 starts a new chunk, and a smaller gap does not. |
| Entries.RegroupTwoChunks | app/models/entry.rb:226-233 | Between two chunks, one empty string is inserted per skipped text. |
| Entries.RegroupSkippedText | app/models/entry.rb:220-228 | Positions 0, 1 and 203 give "abcdef", "" and "ghi", the example the source documents. |
| Similarity.Unigrams | app/models/entry.rb:280-283 | One one-character string per character. |
| Similarity.Bigrams | app/models/entry.rb:285-289 | One circular bigram per character: the character and the one after it, wrapping around. |
| Similarity.Trigrams | app/models/entry.rb:291-295 | One circular trigram per character: the characters before and after it, wrapping around. |
| Similarity.OverlapBound | app/models/entry.rb:304 | The intersection is no larger than the union, and equal in size exactly when the sets are equal. |
| Similarity.JaccardSim | app/models/entry.rb:302-305 | 0 when either list is empty, and always between 0 and 1. |
| Similarity.JaccardSymmetric | app/models/entry.rb:302-305 | The similarity does not depend on argument order. |
| Similarity.JaccardExtremes | app/models/entry.rb:302-305 | For non-empty lists: 1 exactly for equal element sets, and 0 exactly for disjoint ones. |
| Similarity.Blend | app/models/entry.rb:252-256 | The blend lies in [0, 1], and is 1 exactly when every Jaccard value it uses is 1. |
| Similarity.StrSimJp | app/models/entry.rb:274-278 | The 0.7/0.3 blend lies between the two cosine values. |
| Similarity.SelfSimilarity | app/models/entry.rb:285-295 | A non-empty string has n-grams, so it is fully similar to itself. |
| Similarity.IdenticalFormsScoreOne | app/models/entry.rb:244-272 | With identical query and entry forms, both n-gram scores are 1 exactly when the label and norm1 are non-empty. |
| Similarity.ScoresSymmetric | app/models/entry.rb:244-272 | Both n-gram scores are symmetric in query and entry. |
| Similarity.OneSidedNorm2Caps | app/models/entry.rb:252-256 | With a norm2 form on one side only, the score is at most 1/6. |
| Similarity.DisjointFormsScoreZero | app/models/entry.rb:244-257 | Forms with no common character score 0. |
| Languages.ProfilesAgree | app/models/dictionary.rb:406-415 | Each language gets its own combination of index order, measure, scorer and suffix (default: order 3, Jaccard, trigram score, no suffix; Korean: order 2, bigram score; Japanese: order 1, cosine score). |
| Languages.NormalizersDeclared | app/models/dictionary.rb:603-609 | Both analyzer names exist in the entry index settings, differ from each other, and share their language suffix. |
| StopWords.Pick | app/models/dictionary.rb:397-399 | `ml`, `ml[0, 1]` and `ml[-1, 1]` pick only words of the label. |
| StopWords.Intersect | app/models/dictionary.rb:397-399 | Ruby's `&` keeps exactly the words present in both lists. |
| StopWords.MinusSpec | app/models/dictionary.rb:400-402 | Ruby's `-` keeps exactly the words absent from the second list, each as often as it occurs. |
| StopWords.FoundWordsSpec | app/models/dictionary.rb:396-399 | A word counts as found exactly when it is in the list and in the relevant place of some lower-cased label. |
| StopWords.RemainingWordsSpec | app/models/dictionary.rb:400-402 | A word stays exactly when no label has it in that place, and it stays as often as the built-in list holds it. |
| StopWords.UpperCaseIKept | app/models/dictionary.rb:394-396 | Labels are lower-cased, so "I" is never removed from the no-term list. |
| StopWords.WordsAreSlices | app/models/dictionary.rb:396 | Every character of a split word comes from the label. |
| DictionaryParams.StrippedNames | app/models/dictionary.rb:99 | One stripped name per field of the comma/bar split. |
| DictionaryParams.UnknownNames | app/models/dictionary.rb:100 | Empty exactly when every requested name exists. |
| DictionaryParams.FindDictionariesFromParams | app/models/dictionary.rb:89-104 | No names for a missing or blank parameter. ArgumentError exactly when some requested name is unknown. Otherwise the stripped names, in order, all existing. |
| DictionaryParams.NameListRoundTrip | app/models/dictionary.rb:89-104 | Listing existing dictionaries, separated by commas or bars, requests exactly those dictionaries in that order, when their names are not blank and have nothing to strip. |
| DictionaryParams.IdeographicSpaceRequestsNothing | app/models/dictionary.rb:97 | A parameter holding only an ideographic space is blank for `present?`, so no dictionary is requested. |
| DictionaryParams.ListedNamesSplit | app/models/dictionary.rb:97-99 | Such a list is not blank, and splitting and stripping it gives the names back. |
| DictionaryParams.Filename | app/models/dictionary.rb:41-43 | The file name has no whitespace, and a name without whitespace is its own file name. |
| DictionaryParams.UnderscoredWithoutSpace | app/models/dictionary.rb:42 | The substitution changes nothing when there is no whitespace. |
| DictionaryParams.FilenamesCanCollide | app/models/dictionary.rb:41-43 | "a b" and "a_b" share a file name. |
| Ranking.MaxScore | app/models/dictionary.rb:436 | The maximum is the score of some hit, and no hit scores higher. |
| Ranking.TopHitsSpec | app/models/dictionary.rb:434-437 | Exactly the hits at the maximum score stay, at least one, with their multiplicities, and they form a subsequence of the input (original order). |
| Ranking.KeepTopScores | app/models/dictionary.rb:436-437 | The loop keeps exactly the top-score hits. |
| Ranking.InsertByScore | app/models/dictionary.rb:424 | Insertion keeps the order non-increasing and adds exactly one hit. |
| Ranking.SortByScoreDescending | app/models/dictionary.rb:424 | `sort_by(score).reverse` is a permutation in non-increasing score order. |
| Ranking.TopIsHeadOfOrder | app/models/dictionary.rb:424-437 | The head of the ordered list carries the maximum score. |
| Search.JoinedRows | app/models/dictionary.rb:459-462 | An entry gives rows exactly when there is no tag filter or it carries a filtered tag. |
| Search.RowsMembership | app/models/dictionary.rb:458-462 | A row reports exactly the entries of the scope that pass the tag filter. |
| Search.LookupKeys | app/models/dictionary.rb:453-454 | The index's answer when it is consulted and finds something, otherwise the query's own norm2. Never empty. |
| Search.Scored | app/models/dictionary.rb:472 | Every row gets its score and the dictionary name, in order. |
| Search.AtLeast | app/models/dictionary.rb:473 | Exactly the hits at or above the threshold stay, with their multiplicities. |
| Search.ScoredOne | app/models/dictionary.rb:482 | Every exact row scores 1 and carries the dictionary name. |
| Search.SearchHits | app/models/dictionary.rb:440-484 | No hits for an empty term or an empty dictionary, and every hit carries the dictionary's name. |
| Search.KeyRowsSpec | app/models/dictionary.rb:457-462 | The rows of a key report exactly the non-BLACK entries with that norm2 that pass the tag filter. |
| Search.ApproxRowsMembership | app/models/dictionary.rb:456-463 | A row of the approximate path is a row of some key, and every key's rows are there. |
| Search.ApproxHitsSound | app/models/dictionary.rb:448-473 | Approximate hits are distinct, reach the threshold, and report a non-BLACK entry with an index key as norm2 that passes the tag filter. |
| Search.ApproxHitsComplete | app/models/dictionary.rb:448-473 | Every such entry whose score reaches the threshold is found. |
| Search.ScoredDistinct | app/models/dictionary.rb:471-472 | Scoring distinct rows gives distinct hits. |
| Search.AtLeastDistinct | app/models/dictionary.rb:473 | Thresholding keeps hits distinct. |
| Search.ExactHitsSpec | app/models/dictionary.rb:474-483 | With a threshold of 1 or more, the hits are exactly score-1 reports of the non-BLACK entries whose label is the term and that pass the tag filter. |
| Search.ExactSearchReportsUncompiledWhiteTwice | app/models/dictionary.rb:475-481 | The exact path does not deduplicate: an uncompiled WHITE entry is reported twice. |
| Search.ThresholdDefaults | app/models/dictionary.rb:443 | A missing threshold means the dictionary's own. |
| Search.PerDictionaryHits | app/models/dictionary.rb:420-422 | One hit list per dictionary, each searched with its own index. |
| Search.MergedHitsMembership | app/models/dictionary.rb:420-422 | A merged hit belongs to some dictionary, and every dictionary's hits are kept. |
| Search.TermTopSpec | app/models/dictionary.rb:427-438 | Empty exactly for an empty term or no hits at all. Otherwise exactly the merged hits at the best score. |
| Search.TermOrderSpec | app/models/dictionary.rb:417-425 | Every merged hit, with its multiplicity, in non-increasing score order; the head carries the top score. |
| Search.HitsReportNonBlackEntries | app/models/dictionary.rb:440-484 | Every hit reports a non-BLACK entry of its dictionary. |
| Search.PolicyHitsAreMerged | app/models/dictionary.rb:420-437 | Both policies keep only merged hits. |
| Search.LabelLookupIdsAreNonBlack | app/models/dictionary.rb:120-124 | Every identifier returned is the identifier of a non-BLACK entry of a searched dictionary. |
| Search.MergedHitsAreNonBlack | app/models/dictionary.rb:420-422 | Every merged hit reports a non-BLACK entry of one of the dictionaries. |
| Search.RowIdentifier | app/models/entry.rb:112-113 | A result row carries its entry's identifier. |
| Dictionaries.NonBlackCount | app/models/dictionary.rb:200-203 | The count is zero exactly when every entry is BLACK. |
| Dictionaries.NonBlackCountSetMode | app/models/dictionary.rb:200-203 | A mode change moves the count by one exactly when the entry crosses the BLACK boundary. |
| Dictionaries.NonBlackCountRemove | app/models/dictionary.rb:200-203 | Removing an entry lowers the count exactly when it was not BLACK. |
| Dictionaries.NonBlackCountAppend | app/models/dictionary.rb:200-203 | Appending entries adds their count. |
| Dictionaries.WithoutMode | app/models/dictionary.rb:319-325 | Exactly the entries of other modes stay. The list is unchanged exactly when no entry had that mode. |
| Dictionaries.IndexKeysSpec | app/models/dictionary.rb:634-639 | The index holds each norm2 of a GRAY or WHITE entry once, and nothing else. |
| Dictionaries.Labels | app/models/dictionary.rb:396 | One label per entry, whatever its mode. |
| Dictionaries.MarkedCleanKeepsLabels | app/models/dictionary.rb:643 | Marking WHITE entries clean changes no label. |
| Dictionaries.MarkedCleanLeavesNoDirty | app/models/dictionary.rb:643 | When only WHITE entries were dirty, none is dirty afterwards. |
| Dictionaries.HasModePrefix | app/models/dictionary.rb:319-325 | Some entry of a longer prefix has the mode exactly when the shorter prefix does or the added entry has it. |
| Dictionaries.ImportedEntry | app/models/dictionary.rb:263-265 | An imported entry is GRAY, not dirty, keeps its label, identifier and tags, and records its label length. |
| Dictionaries.GatherRows | app/models/dictionary.rb:456-463 | The loop over keys yields exactly the approximate-path rows. |
| Dictionaries.ScoreRows | app/models/dictionary.rb:472 | The loop scores every row. |
| Dictionaries.DropBelow | app/models/dictionary.rb:473 | The loop drops exactly the hits below the threshold. |
| Dictionaries.ScoreExactRows | app/models/dictionary.rb:482 | The loop scores every exact row 1. |
| Dictionaries.Identifiers | app/models/dictionary.rb:124 | The loop maps every hit to its identifier. |
| Dictionaries.Dictionary.constructor | app/models/dictionary.rb:34-39 | A new dictionary has no entries, no index and the built-in stop-word lists. |
| Dictionaries.Dictionary.IsEmpty | app/models/dictionary.rb:153-155 | With an up-to-date counter, a dictionary is empty exactly when every entry is BLACK. |
| Dictionaries.Dictionary.UpdateEntriesNum | app/models/dictionary.rb:200-203 | The counter becomes the number of non-BLACK entries. |
| Dictionaries.Dictionary.SetMode | app/models/entry.rb:167-177 | The one entry's mode changes, and the save callback recounts. |
| Dictionaries.Dictionary.TurnToWhite | app/models/dictionary.rb:214-217 | Only a GRAY entry becomes WHITE, otherwise the source's message is raised and nothing changes. The count stays, and only WHITE entries stay dirty. |
| Dictionaries.Dictionary.TurnToBlack | app/models/dictionary.rb:220-226 | Only a GRAY entry becomes BLACK, otherwise the source's message is raised and nothing changes. The count drops by one. |
| Dictionaries.Dictionary.CancelBlack | app/models/dictionary.rb:229-235 | Only a BLACK entry goes back to GRAY, otherwise the source's message (typo included) is raised. The count rises by one. |
| Dictionaries.Dictionary.UndoEntry | app/models/dictionary.rb:181-190 | A WHITE entry is removed, a BLACK entry goes back to GRAY, any other entry stays. The count moves by -1, +1 or 0. |
| Dictionaries.Dictionary.ConfirmEntries | app/models/dictionary.rb:192-198 | Exactly the listed entries become WHITE, and the count is up to date. |
| Dictionaries.Dictionary.NewEntry | app/models/dictionary.rb:287-300 | A WHITE, dirty entry with the given label and identifier, its label length, and both normal forms from this dictionary's analyzers. |
| Dictionaries.Dictionary.CreateEntry | app/models/dictionary.rb:302-308 | The entry is saved with its tags exactly when it passes the validations; otherwise nothing changes. The count rises by one. |
| Dictionaries.Dictionary.AddEntries | app/models/dictionary.rb:247-285 | The raw entries are appended in order as imported entries with their normal forms, and the count rises by their number. |
| Dictionaries.Dictionary.EmptyEntries | app/models/dictionary.rb:310-330 | With no mode, everything is removed and the index cleared. BLACK entries are restored to GRAY. The entries of GRAY, WHITE or AUTO_EXPANDED are destroyed. Any other argument raises "Unexpected mode: …" and changes nothing. |
| Dictionaries.Dictionary.DestroyAll | app/models/dictionary.rb:319-325 | The entries of one mode are removed, and the counter is recounted exactly when one was. |
| Dictionaries.Dictionary.CancelAllBlack | app/models/dictionary.rb:323 | Every BLACK entry goes back to GRAY, nothing else changes. |
| Dictionaries.Dictionary.Compilable | app/models/dictionary.rb:377-379 | There are entries, and some are dirty or no index exists. |
| Dictionaries.Dictionary.UpdateSimStringDb | app/models/dictionary.rb:628-644 | The index is rebuilt from the active entries' keys, then exactly the WHITE entries are marked clean. |
| Dictionaries.Dictionary.UpdateStopWords | app/models/dictionary.rb:395-404 | Each stored list is its built-in list minus the words found in the labels. |
| Dictionaries.Dictionary.Compile | app/models/dictionary.rb:381-393 | Index rebuilt, WHITE entries clean, stop words derived. The dictionary is no longer compilable when only WHITE entries were dirty. |
| Dictionaries.Dictionary.AdditionalEntriesExistencyUpdate | app/models/dictionary.rb:365-367 | The flag records whether some entry is WHITE and dirty. |
| Dictionaries.Dictionary.SearchTerm | app/models/dictionary.rb:440-484 | The imperative search equals the pure `Search.SearchHits` function. |
| Dictionaries.Dictionary.Contexts | app/models/dictionary.rb:420 | One snapshot per dictionary. |
| Dictionaries.Dictionary.MergeSearches | app/models/dictionary.rb:420-422 | The loop concatenates every dictionary's hits in order. |
| Dictionaries.Dictionary.SearchTermTop | app/models/dictionary.rb:427-438 | Equals `Search.TermTop`, whose properties `Search.TermTopSpec` proves. |
| Dictionaries.Dictionary.SearchTermOrder | app/models/dictionary.rb:417-425 | Equals `Search.TermOrder`, whose properties `Search.TermOrderSpec` proves. |
| Dictionaries.Dictionary.LookupLabel | app/models/dictionary.rb:120-124 | The chosen policy's hits, or their identifiers unless verbose. |
| Dictionaries.Dictionary.FindIdsByLabels | app/models/dictionary.rb:106-131 | Every label is a key, mapped to its own look-up. |
| TextAnnotations.RunEnd | DictionaryManager/app/controllers/text_annotations/text_to_trie.rb:94 | A word token runs over alphanumeric characters and ends at the first other character. |
| TextAnnotations.SpansFromTokenized | DictionaryManager/app/controllers/text_annotations/text_to_trie.rb:94 | The spans are the tokens of the text, in order, with only whitespace around them. |
| TextAnnotations.SpansTokenized | DictionaryManager/app/controllers/text_annotations/text_to_trie.rb:94 | The spans of the whole text are its tokens. |
| TextAnnotations.Tokens | DictionaryManager/app/controllers/text_annotations/text_to_trie.rb:94 | One token per span. |
| TextAnnotations.SpansHoldTokens | DictionaryManager/app/controllers/text_annotations/text_to_trie.rb:92-106 | Each span holds its token, and the spans increase without overlapping. |
| TextAnnotations.IndexFrom | DictionaryManager/app/controllers/text_annotations/text_to_trie.rb:100 | `index` gives the first occurrence at or after the start, or nil when there is none. |
| TextAnnotations.TokenFound | DictionaryManager/app/controllers/text_annotations/text_to_trie.rb:99-103 | Searching for a token from the end of the previous one finds it where the split took it from. |
| TextAnnotations.IndexAfterGap | DictionaryManager/app/controllers/text_annotations/text_to_trie.rb:100 | A token after a whitespace gap is found where it is. |
| TextAnnotations.StopWordListAsWritten | DictionaryManager/app/controllers/text_annotations/text_to_trie.rb:28 | The written list holds "doesdid" and neither "does" nor "did". |
| TextAnnotations.StopWordListCorrected | DictionaryManager/app/controllers/text_annotations/text_to_trie.rb:28 | The corrected list holds "does" and "did", not their concatenation. |
| TextAnnotations.DoesDidStopWhenListed | DictionaryManager/app/controllers/text_annotations/text_to_trie.rb:108-120 | "does" and "did", in any case, are stop spans exactly when listed. |
| TextAnnotations.WordStopWhenListed | DictionaryManager/app/controllers/text_annotations/text_to_trie.rb:108-120 | A word of two or more ASCII letters is a stop span exactly when its lower-case form is listed. |
| TextAnnotations.ArticleSpanStops | DictionaryManager/app/controllers/text_annotations/text_to_trie.rb:111 | A span whose lower-case form starts with "the ", "a " or "an " is a stop span. |
| TextAnnotations.DoesDidAsWritten | DictionaryManager/app/controllers/text_annotations/text_to_trie.rb:28 | With the list as written, "does" and "did" are not stop spans. |
| TextAnnotations.DoesDidCorrected | DictionaryManager/app/controllers/text_annotations/text_to_trie.rb:109 | With the corrected list, "does" and "Did" are stop spans. |
| TextAnnotations.CorrectionIsLocal | DictionaryManager/app/controllers/text_annotations/text_to_trie.rb:108-120 | The correction changes the verdict on no other span. |
| TextAnnotations.StopSpanCases | DictionaryManager/app/controllers/text_annotations/text_to_trie.rb:110-115 | One-character spans, spans starting with "the ", "a " or "an " in any case, and numeric or digit-letter spans are stop spans whatever the list. |
| TextAnnotations.StemmedIdentity | DictionaryManager/app/controllers/text_annotations/text_to_trie.rb:122-136 | With a stem that changes nothing, the stemmed query is the raw text of the tokens. |
| TextAnnotations.StemmedKeptTokens | DictionaryManager/app/controllers/text_annotations/text_to_trie.rb:122-136 | When the stem keeps each token of the window as it is, the stemmed query is the raw text from the first token's start to the last token's end. |
| TextAnnotations.Windows | DictionaryManager/app/controllers/text_annotations/text_to_trie.rb:47 | The starts 0..n-len, one window each, all fitting in the tokens. None when len exceeds n. |
| TextAnnotations.Enumerated | DictionaryManager/app/controllers/text_annotations/text_to_trie.rb:46-47 | Every window visited fits and has a length in the range. |
| TextAnnotations.EnumeratedCovers | DictionaryManager/app/controllers/text_annotations/text_to_trie.rb:46-47 | A window is visited exactly when it fits and its length is in the range. |
| TextAnnotations.CandidatesSkipStopSpans | DictionaryManager/app/controllers/text_annotations/text_to_trie.rb:51-54 | No candidate comes from a stop span. |
| TextAnnotations.CandidatesHyphenFree | DictionaryManager/app/controllers/text_annotations/text_to_trie.rb:65-67 | With the hyphen flag, no query holds a hyphen. |
| TextAnnotations.CandidatesAreRawText | DictionaryManager/app/controllers/text_annotations/text_to_trie.rb:51-75 | Without flags, every query is the text of its range. |
| TextAnnotations.GroupedKeys | DictionaryManager/app/controllers/text_annotations/text_to_trie.rb:70-77 | The trie holds exactly the candidates' queries. |
| TextAnnotations.GroupedRanges | DictionaryManager/app/controllers/text_annotations/text_to_trie.rb:70-77 | Each query maps to the ranges of all its candidates, in visiting order. |
| TextAnnotations.IdentityStemKeepsQueries | DictionaryManager/app/controllers/text_annotations/text_to_trie.rb:57-59 | A stem that changes nothing makes the stemming flag irrelevant. |
| TextAnnotations.TheCatSat | DictionaryManager/app/controllers/text_annotations/text_to_trie.rb:41-90 | "the cat sat" with spans of 1-2 tokens gives "cat", "sat" and "cat sat" with their ranges. "the" and "the cat" are skipped. |
| TextAnnotations.CandidatesAppend | DictionaryManager/app/controllers/text_annotations/text_to_trie.rb:46-47 | The candidates of two runs of windows are those of the first followed by those of the second. |
| TextAnnotations.CandidatesSnoc | DictionaryManager/app/controllers/text_annotations/text_to_trie.rb:53-75 | One more window adds a candidate exactly when its raw span is not a stop span. |
| TextAnnotations.GroupedSnoc | DictionaryManager/app/controllers/text_annotations/text_to_trie.rb:70-77 | Recording one more candidate extends its query's list. |
| TextAnnotations.TextToTrie.constructor | DictionaryManager/app/controllers/text_annotations/text_to_trie.rb:17-37 | The length range is kept, and the stop-word list is the corrected one. |
| TextAnnotations.Tokenize | DictionaryManager/app/controllers/text_annotations/text_to_trie.rb:92-106 | The offsets are the token spans, increasing and non-overlapping. |
| TextAnnotations.FindToken | DictionaryManager/app/controllers/text_annotations/text_to_trie.rb:100-102 | Each token is recorded at its own span. |
| TextAnnotations.StemIt | DictionaryManager/app/controllers/text_annotations/text_to_trie.rb:122-136 | The loop builds the stems with the text between tokens copied. |
| TextAnnotations.StemToken | DictionaryManager/app/controllers/text_annotations/text_to_trie.rb:125-133 | One pass of the loop extends the query from the first t tokens to the first t+1. |
| TextAnnotations.TextToTrie.ToTrie | DictionaryManager/app/controllers/text_annotations/text_to_trie.rb:41-90 | Raises exactly when the length range is non-empty and starts at 0 or below. Otherwise gives the trie of every non-stop window's query and range. |
| TextAnnotations.TextToTrie.RecordLengths | DictionaryManager/app/controllers/text_annotations/text_to_trie.rb:46-79 | The outer loop records the candidates of every length in turn. |
| TextAnnotations.RecordWindows | DictionaryManager/app/controllers/text_annotations/text_to_trie.rb:47-78 | The inner loop records the candidates of one length. |
| TextAnnotations.RecordWindow | DictionaryManager/app/controllers/text_annotations/text_to_trie.rb:48-77 | One window is skipped when it is a stop span, and otherwise recorded. |
| TextAnnotations.AddRange | DictionaryManager/app/controllers/text_annotations/text_to_trie.rb:70-77 | A range is appended to the query's list, which starts empty. |
| TextAnnotations.Normalized | DictionaryManager/app/controllers/text_annotations/text_to_trie.rb:56-67 | Stem, then lower-case, then replace hyphens, each as its flag says. |
| TextAnnotator.ToPath | app/lib/text_annotator/batch_result.rb:21-23 | The path is the directory followed by the file name. |
| TextAnnotator.ToPathInjective | app/lib/text_annotator/batch_result.rb:21-23 | Distinct file names get distinct paths. |
| TextAnnotator.LineJobId | app/lib/text_annotator/batch_result.rb:28 | A line matches only when it is the prefix, a non-empty id and the suffix. |
| TextAnnotator.NewlineAt | app/lib/text_annotator/batch_result.rb:28 | The first line break, or nil when there is none. |
| TextAnnotator.JobIdRoundTrip | app/lib/text_annotator/batch_result.rb:28-33 | A non-empty single-line job id comes back from its file name. |
| TextAnnotator.JobIdOfOneLine | app/lib/text_annotator/batch_result.rb:28-29 | On one line, the pattern matches exactly the names built from a job id, and gives that id. |
| TextAnnotator.BuiltNameLine | app/lib/text_annotator/batch_result.rb:33 | A job id inside a one-line name has no line break. |
| TextAnnotator.Derive | app/lib/text_annotator/batch_result.rb:26-37 | ArgumentError exactly when neither is given. A given file name is kept and the job id is the one its name gives, nil when it does not have the form; a job id alone is kept and names the file `annotation-<id>.json`. |
| TextAnnotator.DeriveConsistent | app/lib/text_annotator/batch_result.rb:26-37 | A naming from a file name always agrees with its job id. One from a job id agrees exactly when the id is non-empty and single-line. |
| TextAnnotator.EmptyJobIdLost | app/lib/text_annotator/batch_result.rb:28-33 | An empty job id does not come back from its file name. |
| TextAnnotator.LineBreakJobIdLost | app/lib/text_annotator/batch_result.rb:28-33 | A job id with a line break does not come back whole. |
| TextAnnotator.JobIdsAreLines | app/lib/text_annotator/batch_result.rb:28-29 | A captured job id never holds a line break. |
| TextAnnotator.HasTextKey | app/lib/text_annotator/batch_result.rb:75-77 | Only a hash answers `has_key?`, and it answers whether "text" is a key. |
| TextAnnotator.Succeeded | app/lib/text_annotator/batch_result.rb:71-79 | True exactly for a hash with "text", or an array whose first item is one. |
| TextAnnotator.StatusCases | app/lib/text_annotator/batch_result.rb:43-53 | Not found exactly for a missing file; success and error exactly as `success?` answers for a parsed file. |
| TextAnnotator.AbsentFileNotRead | app/lib/text_annotator/batch_result.rb:43-69 | A missing file is not found, whatever a parse would give. |
| TextAnnotator.BatchResult.constructor | app/lib/text_annotator/batch_result.rb:26-37 | Keeps the naming, no path memo yet. |
| TextAnnotator.BatchResult.New | app/lib/text_annotator/batch_result.rb:26-37 | Fails exactly as `Derive` does. Otherwise a fresh object with `Derive`'s naming. |
| TextAnnotator.BatchResult.FilePath | app/lib/text_annotator/batch_result.rb:55-57 | Computed on the first call, and the memo returned afterwards. |
| TextAnnotator.BatchResult.GetStatus | app/lib/text_annotator/batch_result.rb:43-53 | Gives `StatusOf`, and leaves the path memo set to this object's path. |

## Left out

- ActiveRecord persistence, SQL, transactions and the model callbacks are out of scope. An entry is a value in the dictionary's `entries` sequence, addressed by position, and every save or destroy recounts `entriesNum` as the `after_save`/`after_destroy` callbacks do (app/models/entry.rb:98-99).
- The approximate string index (the simstring gem) is a parameter: a retrieve function per dictionary name, absent when the reader could not be opened. Its writer is modelled as the list of keys it receives.
- The analyzer behind `normalize1`/`normalize2`/`normalize`/`batch_normalize` is an HTTP call. The model takes the analyzer as a function parameter, and for `batch_normalize` takes its token list. The `tr('{}', '()')` preprocessing and the "Empty text" check of `normalize` belong to that call and are left out.
- The stemmer (`String#stem`) is a parameter.
- `String::Similarity.cosine` is a parameter, and floating point is modelled as exact reals.
- Similarity.StrSimJp: the cosine values are parameters, so the contract only bounds the 0.7/0.3 blend.
- Search.RowScore: a nil `norm1` or `norm2` of a row is scored as the empty string. The source's `get_bigrams(nil)` raises NoMethodError in the Korean profile, and so does `nil.empty?` in the trigram profile when the query's norm2 is also empty.
- Regular expressions are whole-string matches. Ruby's `^`/`$` are line anchors, so a multi-line tag string could match line by line; this applies to `get_tags` (app/models/entry.rb:159) and to the numeric patterns of `stopwords?`. Line anchors are modelled for the job-id pattern of `BatchResult`.
- `blank?`/`present?` skip Unicode white space (`[[:space:]]`), while `strip`, `split` and `\s` skip only ASCII white space; the model keeps the two sets apart (`RubyText.IsBlankChar` and `RubyText.IsSpace`). `downcase` is ASCII-only. `text.split(/\s|(\W|_)/)` is modelled for ASCII text: a word token is a run of `[a-zA-Z0-9]`, and any other non-space character is a token of its own.
- The trie (the triez gem) is a `map` from query strings to range lists, and `to_trie`'s final copy into a hash is the identity.
- TextAnnotations.TextToTrie.ToTrie: when the length range starts at 0 or below and is not empty, the source raises NoMethodError on `offsets[n]`; the model returns a failure without modelling which windows were recorded before.
- Ruby's `sort_by` is not stable. Ranking.SortByScoreDescending fixes one order among equal scores, and the contracts only state the non-increasing order and the permutation.
- Synonym expansion (`append_expanded_synonym_entries`), patterns (`add_patterns`), downloads, `as_tsv_v`, `decapitalize`, the statistics counters (`num_gray` and the like), and the database locations (`sim_string_db_dir`, `update_db_location`, `update_tmp_sim_string_db`) are outside the core.
- Dictionaries.Dictionary.ConfirmEntries: `Entry.where(id: entry_ids)` is not scoped to the dictionary, so the source also turns WHITE the listed entries of other dictionaries (app/models/dictionary.rb:194). The model holds one dictionary's entries, addressed by position, and states the effect on those only.
- Search.KeyRows: the additional rows are kept in their plain form. Their conversion to result hashes comes from the `HashToResultHash` refinement (app/models/dictionary.rb:5), which is not part of this model.
- Dictionaries.Dictionary.EmptyEntries: `EntryMode` is not part of this model, so its integer values are not known. An argument that is none of the four modes is an `OtherMode` carrying its printed form.
- DictionaryParams.NameListRoundTrip: every listed name is required to be non-blank for `present?`. A list whose names are all Unicode white space is blank and requests nothing (see `DictionaryParams.IdeographicSpaceRequestsNothing`), and lists that mix blank and non-blank names are not covered by the lemma.
- Dictionaries.Dictionary.AddEntries: tags are stored on the entry itself. The separate tag and entry-tag tables, and their import errors, are not modelled.
- TextAnnotator.BatchResult.GetStatus: the file system is outside the model. Whether the file exists and what parsing it gives are parameters, and `save!`, `older_files` and `setup_directory` are left out. The `@annotations` memo is not modelled, since both of its reads see the same parsed value.
- Concurrency (simultaneous compiles and look-ups) is out of scope.
- The model scores an empty n-gram list as similarity 0, as the code does, and does not fail on it (app/models/entry.rb:303). It reports uncompiled WHITE entries twice on the exact path, as the code does (app/models/dictionary.rb:475-481).

## Findings

| source | as written | input that shows it | evidently intended | confidence | as-written member | corrected member |
|---|---|---|---|---|---|---|
| DictionaryManager/app/controllers/text_annotations/text_to_trie.rb:28 | `'does' 'did'` has no comma, so Ruby joins the two literals into the single stop word "doesdid" | the span "does" (or "did") is not a stop span and is recorded in the trie | "does" and "did" as two stop words, like the other auxiliaries on that line | high; not executed | TextAnnotations.DoesDidAsWritten | TextAnnotations.DoesDidCorrected |
| app/models/entry.rb:120 | `as_tsv` writes `entry.tag_values` through `CSV.generate`, which quotes an empty field, so an entry without tags gets the tag column `""`; `get_tags` then raises on that column (app/models/entry.rb:159) | an entry labelled "ab" with identifier "X:1" and no tags is exported as `ab`, a tab, `X:1`, a tab and `""`, and uploading that row raises "invalid tags" | an exported dictionary can be uploaded again, so a tagless entry's tag column is left empty (for example by writing `tag_values.presence`) | medium; not executed | Entries.TaglessTsvLineRejected | Entries.CorrectedTsvLineRoundTrip |
