/** A dictionary (dictionary.rb) with its entries held in memory: curation of entry modes, the
    `entries_num` counter, creating and importing entries, emptying, compiling the approximate
    index and the stop-word lists, and the term searches over one or several dictionaries. */
module Dictionaries {
  import opened Outcomes
  import opened RubyText
  import opened Seqs
  import opened Entries
  import opened Languages
  import opened StopWords
  import opened Ranking
  import opened Search

  /** The number of entries whose mode is not BLACK (AUTO_EXPANDED entries included). */
  function NonBlackCount(es: seq<Entry>): (n: nat)
    ensures n <= |es|
    ensures n == 0 <==> forall i :: 0 <= i < |es| ==> es[i].IsBlack()
  {
    Count(es, (e: Entry) => !e.IsBlack())
  }

  /** Changing the mode of one entry moves the count by one exactly when the entry crosses the
      BLACK boundary. */
  lemma NonBlackCountSetMode(es: seq<Entry>, i: nat, m: Mode)
    requires i < |es|
    ensures NonBlackCount(es[i := es[i].(mode := m)]) ==
              NonBlackCount(es) - (if es[i].IsBlack() then 0 else 1) + (if m == Black then 0 else 1)
  {
    CountUpdate(es, i, es[i].(mode := m), (e: Entry) => !e.IsBlack());
  }

  /** Removing an entry lowers the count by one exactly when it is not BLACK. */
  lemma NonBlackCountRemove(es: seq<Entry>, i: nat)
    requires i < |es|
    ensures NonBlackCount(es[..i] + es[i + 1..]) == NonBlackCount(es) - (if es[i].IsBlack() then 0 else 1)
  {
    CountRemove(es, i, (e: Entry) => !e.IsBlack());
  }

  /** Appending entries adds their count. */
  lemma NonBlackCountAppend(es: seq<Entry>, more: seq<Entry>)
    ensures NonBlackCount(es + more) == NonBlackCount(es) + NonBlackCount(more)
  {
    CountAppend(es, more, (e: Entry) => !e.IsBlack());
  }

  /** Only confirmed entries wait for compilation: every dirty entry is WHITE. */
  predicate DirtyOnlyWhite(es: seq<Entry>) {
    forall i :: 0 <= i < |es| && es[i].dirty ==> es[i].IsWhite()
  }

  /** The entries without those of one mode (`entries.<mode>.destroy_all`): the sequence is
      unchanged exactly when no entry has that mode, and shorter otherwise. */
  function WithoutMode(es: seq<Entry>, m: Mode): (r: seq<Entry>)
    ensures forall e :: e in r <==> e in es && e.mode != m
    ensures r == es <==> forall i :: 0 <= i < |es| ==> es[i].mode != m
    ensures |r| < |es| <==> exists i :: 0 <= i < |es| && es[i].mode == m
  {
    FilterShorter(es, (e: Entry) => e.mode != m);
    FilterKeepsAll(es, (e: Entry) => e.mode != m);
    Filter(es, (e: Entry) => e.mode != m)
  }

  /** What `update_sim_string_db` inserts: the distinct norm2 values of the GRAY and WHITE
      entries, nil values left out (`active.pluck(:norm2).uniq.compact`). */
  function IndexKeys(es: seq<Entry>): seq<string> {
    Compact(Uniq(Map(Filter(es, (e: Entry) => e.IsActive()), (e: Entry) => e.norm2)))
  }

  /** The index holds each norm2 of an active entry exactly once, and nothing else: no norm2 that
      only BLACK or AUTO_EXPANDED entries carry. */
  lemma IndexKeysSpec(es: seq<Entry>)
    ensures Distinct(IndexKeys(es))
    ensures forall k :: k in IndexKeys(es) <==> exists i :: 0 <= i < |es| && es[i].IsActive() && es[i].norm2 == Some(k)
  {
    var active := Filter(es, (e: Entry) => e.IsActive());
    var norms := Map(active, (e: Entry) => e.norm2);
    forall k ensures Some(k) in norms <==> exists i :: 0 <= i < |es| && es[i].IsActive() && es[i].norm2 == Some(k) {
      if Some(k) in norms {
        var j :| 0 <= j < |norms| && norms[j] == Some(k);
        assert active[j] in es;
      }
      if i :| 0 <= i < |es| && es[i].IsActive() && es[i].norm2 == Some(k) {
        assert es[i] in active;
        var j :| 0 <= j < |active| && active[j] == es[i];
        assert norms[j] == Some(k);
      }
    }
  }

  /** The labels of all entries, whatever their mode (`entries.pluck(:label)`). */
  function Labels(es: seq<Entry>): (r: seq<string>)
    ensures |r| == |es| && forall i :: 0 <= i < |es| ==> r[i] == es[i].surface
  {
    Map(es, (e: Entry) => e.surface)
  }

  /** An entry after `entries.white.update_all(dirty: false)`. */
  function MarkedClean(e: Entry): Entry {
    if e.IsWhite() then e.(dirty := false) else e
  }

  /** Marking the WHITE entries clean changes no label. */
  lemma MarkedCleanKeepsLabels(es: seq<Entry>)
    ensures Labels(Map(es, MarkedClean)) == Labels(es)
  {
  }

  /** Marking the WHITE entries clean leaves no dirty entry behind when only WHITE entries were
      dirty. */
  lemma MarkedCleanLeavesNoDirty(es: seq<Entry>)
    requires DirtyOnlyWhite(es)
    ensures !HasDirtyEntries(Map(es, MarkedClean))
  {
  }

  /** Some entry has the given mode. */
  predicate HasMode(es: seq<Entry>, m: Mode) {
    exists k :: 0 <= k < |es| && es[k].mode == m
  }

  lemma HasModePrefix(es: seq<Entry>, m: Mode, i: nat)
    requires i < |es|
    ensures HasMode(es[..i + 1], m) <==> HasMode(es[..i], m) || es[i].mode == m
  {
    assert es[..i + 1][i] == es[i];
    assert forall k :: 0 <= k < i ==> es[..i + 1][k] == es[..i][k];
  }

  /** A BLACK entry after `cancel_black`; other entries as they are. */
  function Ungrayed(e: Entry): Entry {
    if e.IsBlack() then e.(mode := Gray) else e
  }

  /** `entries.where(dirty: true).exists?` */
  predicate HasDirtyEntries(es: seq<Entry>) {
    exists k :: 0 <= k < |es| && es[k].dirty
  }

  /** `entries.additional_entries.exists?`: some entry is WHITE and still dirty. */
  predicate HasAdditionalEntries(es: seq<Entry>) {
    exists k :: 0 <= k < |es| && es[k].IsAdditional()
  }

  /** An entry as `add_entries` imports it: GRAY, not dirty, with the label length and the
      normal forms at its position (nil past the end of the lists). */
  function ImportedEntry(raw: RawEntry, norm1: Option<string>, norm2: Option<string>): (e: Entry)
    ensures e.mode == Gray && !e.dirty && e.labelLength == |raw.surface|
    ensures e.surface == raw.surface && e.identifier == raw.identifier && e.tags == raw.tags
  {
    Entry(raw.surface, raw.identifier, norm1, norm2, |raw.surface|, Gray, false, raw.tags, None)
  }

  /** `norm_list[i]`: nil past the end. */
  function At(norms: seq<string>, i: nat): Option<string> {
    if i < |norms| then Some(norms[i]) else None
  }

  /** The result of a call that either returns normally or raises. */
  datatype Outcome = Done | Raised(message: string)

  /** The argument of `empty_entries`: nil, one of the entry modes, or any other value, shown as
      Ruby's string interpolation writes it. */
  datatype ModeArgument = NoMode | KnownMode(mode: Mode) | OtherMode(shown: string)

  /** The `results +=` loop of `search_term` over the look-up keys: for each key, the
      additional entries with that norm2 (when the dictionary has any), then the non-BLACK ones. */
  method GatherRows(c: SearchContext, keys: seq<string>, tags: seq<string>) returns (results: seq<ResultHash>)
    ensures results == ApproxRows(c, keys, tags)
  {
    results := [];
    for i := 0 to |keys|
      invariant results == ApproxRows(c, keys[..i], tags)
    {
      assert keys[..i + 1][..i] == keys[..i];
      ghost var before := results;
      if c.additionalEntriesExists {
        results := results + Rows(c.entries, Additional(Norm2Column, keys[i]), tags, false);
      }
      results := results + Rows(c.entries, WithoutBlack(Norm2Column, keys[i]), tags, c.tagExists);
      assert results == before + KeyRows(c, keys[i], tags);
    }
    assert keys[..|keys|] == keys;
  }

  /** `results.each { |e| e.merge!(score: ..., dictionary: name) }`: every row gets its score. */
  method ScoreRows(rows: seq<ResultHash>, s: Scoring) returns (scored: seq<Hit>)
    ensures scored == Scored(rows, s)
  {
    scored := [];
    for i := 0 to |rows|
      invariant scored == Scored(rows[..i], s)
    {
      assert rows[..i + 1][..i] == rows[..i];
      scored := scored + [HitOf(s, rows[i])];
    }
    assert rows[..|rows|] == rows;
  }

  /** `results.delete_if { |e| e[:score] < threshold }` */
  method DropBelow(hits: seq<Hit>, threshold: real) returns (kept: seq<Hit>)
    ensures kept == AtLeast(hits, threshold)
  {
    kept := [];
    for i := 0 to |hits|
      invariant kept == AtLeast(hits[..i], threshold)
    {
      assert hits[..i + 1][..i] == hits[..i];
      if hits[i].score >= threshold {
        kept := kept + [hits[i]];
      }
    }
    assert hits[..|hits|] == hits;
  }

  /** `results.each { |e| e.merge!(score: 1, dictionary: name) }` on the exact path. */
  method ScoreExactRows(rows: seq<ResultHash>, name: string) returns (hits: seq<Hit>)
    ensures hits == ScoredOne(rows, name)
  {
    hits := [];
    for i := 0 to |rows|
      invariant hits == ScoredOne(rows[..i], name)
    {
      assert rows[..i + 1][..i] == rows[..i];
      hits := hits + [Hit(rows[i], 1.0, name)];
    }
    assert rows[..|rows|] == rows;
  }

  /** `h[label].map! { |entry| entry[:identifier] }` */
  method Identifiers(hits: seq<Hit>) returns (ids: seq<string>)
    ensures ids == Map(hits, IdentifierOf)
  {
    ids := [];
    for k := 0 to |hits|
      invariant |ids| == k && forall j :: 0 <= j < k ==> ids[j] == hits[j].row.identifier
    {
      ids := ids + [hits[k].row.identifier];
    }
  }

  class Dictionary {
    const name: string
    const language: Option<string>
    var threshold: real
    var entries: seq<Entry>
    var entriesNum: int
    /** The keys of the compiled approximate index; None when no index file exists. */
    var simStringDb: Option<seq<string>>
    /** The `no_term_words`, `no_begin_words` and `no_end_words` columns. */
    var stopWords: StopLists
    /** The memoised `additional_entries_exists?` and `tags_exists?`. */
    var additionalEntriesExists: bool
    var tagExists: bool

    /** A dictionary without entries, index or memoised flags, holding the built-in stop-word
        lists. */
    constructor (name: string, language: Option<string>, threshold: real)
      ensures this.name == name && this.language == language && this.threshold == threshold
      ensures entries == [] && entriesNum == 0 && simStringDb == None
      ensures stopWords == BuiltIn()
      ensures !additionalEntriesExists && !tagExists
    {
      this.name := name;
      this.language := language;
      this.threshold := threshold;
      entries := [];
      entriesNum := 0;
      simStringDb := None;
      stopWords := BuiltIn();
      additionalEntriesExists := false;
      tagExists := false;
    }

    /** What a search reads of this dictionary. */
    function Context(): SearchContext
      reads this
    {
      SearchContext(name, language, threshold, entries, entriesNum, additionalEntriesExists, tagExists)
    }

    /** `empty?`: when the counter is up to date, a dictionary is empty exactly when all of its
        entries are BLACK. */
    predicate IsEmpty()
      reads this
      ensures entriesNum == NonBlackCount(entries) ==> (IsEmpty() <==> forall i :: 0 <= i < |entries| ==> entries[i].IsBlack())
    {
      entriesNum == 0
    }

    /** `update_entries_num` */
    method UpdateEntriesNum()
      modifies `entriesNum
      ensures entriesNum == NonBlackCount(entries)
    {
      entriesNum := NonBlackCount(entries);
    }

    /** `be_gray!`, `be_white!`, `be_black!`: the mode is saved, and the entry's `after_save`
        callback brings the dictionary's counter up to date. */
    method SetMode(i: nat, m: Mode)
      requires i < |entries|
      modifies `entries, `entriesNum
      ensures entries == old(entries)[i := old(entries)[i].(mode := m)]
      ensures entriesNum == NonBlackCount(entries)
    {
      entries := entries[i := entries[i].(mode := m)];
      UpdateEntriesNum();
    }

    /** `turn_to_white`: only a GRAY entry becomes WHITE, and the count stays. */
    method TurnToWhite(i: nat) returns (r: Outcome)
      requires i < |entries|
      modifies `entries, `entriesNum
      ensures r.Done? <==> old(entries)[i].mode == Gray
      ensures r.Raised? ==> r.message == "Only a gray entry can be turned to white" && unchanged(this)
      ensures r.Done? ==> entries == old(entries)[i := old(entries)[i].(mode := White)] && entriesNum == NonBlackCount(entries)
      ensures r.Done? && old(entriesNum) == NonBlackCount(old(entries)) ==> entriesNum == old(entriesNum)
      ensures DirtyOnlyWhite(old(entries)) ==> DirtyOnlyWhite(entries)
    {
      if entries[i].mode != Gray {
        return Raised("Only a gray entry can be turned to white");
      }
      NonBlackCountSetMode(entries, i, White);
      SetMode(i, White);
      r := Done;
    }

    /** `turn_to_black`: only a GRAY entry becomes BLACK, and it stops being counted. */
    method TurnToBlack(i: nat) returns (r: Outcome)
      requires i < |entries|
      modifies `entries, `entriesNum
      ensures r.Done? <==> old(entries)[i].mode == Gray
      ensures r.Raised? ==> r.message == "Only a gray entry can be turned to black" && unchanged(this)
      ensures r.Done? ==> entries == old(entries)[i := old(entries)[i].(mode := Black)] && entriesNum == NonBlackCount(entries)
      ensures r.Done? && old(entriesNum) == NonBlackCount(old(entries)) ==> entriesNum == old(entriesNum) - 1
      ensures DirtyOnlyWhite(old(entries)) ==> DirtyOnlyWhite(entries)
    {
      if entries[i].mode != Gray {
        return Raised("Only a gray entry can be turned to black");
      }
      NonBlackCountSetMode(entries, i, Black);
      SetMode(i, Black);
      r := Done;
    }

    /** `cancel_black`: only a BLACK entry goes back to GRAY, and it is counted again. */
    method CancelBlack(i: nat) returns (r: Outcome)
      requires i < |entries|
      modifies `entries, `entriesNum
      ensures r.Done? <==> old(entries)[i].mode == Black
      ensures r.Raised? ==> r.message == "Ony a black entry can be canceled to gray" && unchanged(this)
      ensures r.Done? ==> entries == old(entries)[i := old(entries)[i].(mode := Gray)] && entriesNum == NonBlackCount(entries)
      ensures r.Done? && old(entriesNum) == NonBlackCount(old(entries)) ==> entriesNum == old(entriesNum) + 1
      ensures DirtyOnlyWhite(old(entries)) ==> DirtyOnlyWhite(entries)
    {
      if entries[i].mode != Black {
        return Raised("Ony a black entry can be canceled to gray");
      }
      NonBlackCountSetMode(entries, i, Gray);
      SetMode(i, Gray);
      r := Done;
    }

    /** `undo_entry`: a WHITE entry is destroyed, a BLACK entry goes back to GRAY, and an entry
        in any other mode is left as it is. */
    method UndoEntry(i: nat)
      requires i < |entries|
      modifies `entries, `entriesNum
      ensures old(entries)[i].IsWhite() ==> entries == old(entries)[..i] + old(entries)[i + 1..] && entriesNum == NonBlackCount(entries)
      ensures old(entries)[i].IsBlack() ==> entries == old(entries)[i := old(entries)[i].(mode := Gray)] && entriesNum == NonBlackCount(entries)
      ensures !old(entries)[i].IsWhite() && !old(entries)[i].IsBlack() ==> unchanged(this)
      ensures old(entriesNum) == NonBlackCount(old(entries)) ==>
                entriesNum == old(entriesNum) + (if old(entries)[i].IsWhite() then -1 else if old(entries)[i].IsBlack() then 1 else 0)
      ensures DirtyOnlyWhite(old(entries)) ==> DirtyOnlyWhite(entries)
    {
      if entries[i].IsWhite() {
        NonBlackCountRemove(entries, i);
        entries := entries[..i] + entries[i + 1..];
        UpdateEntriesNum();
      } else if entries[i].IsBlack() {
        NonBlackCountSetMode(entries, i, Gray);
        SetMode(i, Gray);
        UpdateEntriesNum();
      }
    }

    /** `confirm_entries`: every listed entry becomes WHITE, whatever its mode, and the counter is
        brought up to date. */
    method ConfirmEntries(positions: set<nat>)
      modifies `entries, `entriesNum
      ensures |entries| == |old(entries)|
      ensures forall k :: 0 <= k < |entries| ==>
                entries[k] == if k in positions then old(entries)[k].(mode := White) else old(entries)[k]
      ensures entriesNum == NonBlackCount(entries)
      ensures DirtyOnlyWhite(old(entries)) ==> DirtyOnlyWhite(entries)
    {
      for i := 0 to |entries|
        invariant |entries| == |old(entries)|
        invariant forall k :: 0 <= k < i ==> entries[k] == if k in positions then old(entries)[k].(mode := White) else old(entries)[k]
        invariant forall k :: i <= k < |entries| ==> entries[k] == old(entries)[k]
      {
        if i in positions {
          SetMode(i, White);
        }
      }
      UpdateEntriesNum();
    }

    /** `new_entry`: a WHITE, dirty entry with both normal forms computed by this dictionary's
        analyzers and its label length recorded. */
    function NewEntry(surface: string, identifier: string, normalize: (string, string) -> string): (e: Entry)
      ensures e.mode == White && e.dirty && e.IsAdditional()
      ensures e.surface == surface && e.identifier == identifier && e.labelLength == |surface|
      ensures e.norm1 == Some(normalize(surface, Normalizer1(language)))
      ensures e.norm2 == Some(normalize(surface, Normalizer2(language)))
      ensures e.tags == [] && e.score.None?
    {
      Entry(surface, identifier, Some(normalize(surface, Normalizer1(language))),
            Some(normalize(surface, Normalizer2(language))), |surface|, White, true, [], None)
    }

    /** `create_entry!`: the new entry with its tags is saved when it passes the validations,
        otherwise the save raises and nothing changes. */
    method CreateEntry(surface: string, identifier: string, tags: seq<string>, normalize: (string, string) -> string)
      returns (r: Result<Entry>)
      modifies `entries, `entriesNum
      ensures r.Success? <==> IsValid(NewEntry(surface, identifier, normalize))
      ensures r.Failure? ==> unchanged(this)
      ensures r.Success? ==> r.value == NewEntry(surface, identifier, normalize).(tags := tags)
      ensures r.Success? ==> entries == old(entries) + [r.value] && entriesNum == NonBlackCount(entries)
      ensures r.Success? && old(entriesNum) == NonBlackCount(old(entries)) ==> entriesNum == old(entriesNum) + 1
      ensures DirtyOnlyWhite(old(entries)) ==> DirtyOnlyWhite(entries)
    {
      var e := NewEntry(surface, identifier, normalize).(tags := tags);
      if IsBlank(surface) || IsBlank(identifier) {
        var reasons := (if IsBlank(surface) then ["Label can't be blank"] else [])
                       + (if IsBlank(identifier) then ["Identifier can't be blank"] else []);
        return Failure("Validation failed: " + JoinWith(reasons, ", "));
      }
      NonBlackCountAppend(entries, [e]);
      entries := entries + [e];
      UpdateEntriesNum();
      r := Success(e);
    }

    /** `add_entries`: the raw entries are appended as GRAY, non-dirty entries with their tags and
        the normal forms at their positions, and the counter is brought up to date. */
    method AddEntries(raw: seq<RawEntry>, norm1list: seq<string>, norm2list: seq<string>)
      modifies `entries, `entriesNum
      ensures |entries| == |old(entries)| + |raw| && entries[..|old(entries)|] == old(entries)
      ensures forall i :: 0 <= i < |raw| ==>
                entries[|old(entries)| + i] == ImportedEntry(raw[i], At(norm1list, i), At(norm2list, i))
      ensures entriesNum == NonBlackCount(entries)
      ensures old(entriesNum) == NonBlackCount(old(entries)) ==> entriesNum == old(entriesNum) + |raw|
      ensures DirtyOnlyWhite(old(entries)) ==> DirtyOnlyWhite(entries)
    {
      var imported := seq(|raw|, i requires 0 <= i < |raw| => ImportedEntry(raw[i], At(norm1list, i), At(norm2list, i)));
      assert NonBlackCount(imported) == |imported|;
      NonBlackCountAppend(entries, imported);
      entries := entries + imported;
      UpdateEntriesNum();
    }

    /** `empty_entries`: with no mode, every entry goes and the index file is removed; with GRAY,
        WHITE or AUTO_EXPANDED, the entries of that mode are destroyed; with BLACK, every BLACK
        entry goes back to GRAY; any other argument raises ArgumentError and changes nothing. */
    method EmptyEntries(mode: ModeArgument) returns (r: Outcome)
      modifies `entries, `entriesNum, `simStringDb
      ensures r.Raised? <==> mode.OtherMode?
      ensures mode.OtherMode? ==> r.message == "Unexpected mode: " + mode.shown && unchanged(this)
      ensures mode.NoMode? ==> entries == [] && entriesNum == 0 && simStringDb == None
      ensures mode.KnownMode? && mode.mode != Black ==> entries == WithoutMode(old(entries), mode.mode)
      ensures mode == KnownMode(Black) ==> entries == Map(old(entries), Ungrayed)
      ensures mode.KnownMode? ==>
                entriesNum == if HasMode(old(entries), mode.mode) then NonBlackCount(entries) else old(entriesNum)
      ensures mode.KnownMode? ==> simStringDb == old(simStringDb)
    {
      match mode
      case NoMode =>
        entries := [];
        UpdateEntriesNum();
        simStringDb := None;
        r := Done;
      case KnownMode(Black) =>
        CancelAllBlack();
        r := Done;
      case KnownMode(m) =>
        DestroyAll(m);
        r := Done;
      case OtherMode(shown) =>
        r := Raised("Unexpected mode: " + shown);
    }

    /** `entries.<mode>.destroy_all`: every destroyed entry's `after_destroy` callback brings the
        counter up to date, so it is recounted exactly when some entry had that mode. */
    method DestroyAll(m: Mode)
      modifies `entries, `entriesNum
      ensures entries == WithoutMode(old(entries), m)
      ensures entriesNum == if HasMode(old(entries), m) then NonBlackCount(entries) else old(entriesNum)
      ensures DirtyOnlyWhite(old(entries)) ==> DirtyOnlyWhite(entries)
    {
      var kept := WithoutMode(entries, m);
      if |kept| < |entries| {
        entries := kept;
        UpdateEntriesNum();
      }
    }

    /** `entries.black.each { |e| cancel_black(e) }`: every BLACK entry goes back to GRAY, each
        with a recount, and nothing else changes. */
    method CancelAllBlack()
      modifies `entries, `entriesNum
      ensures entries == Map(old(entries), Ungrayed)
      ensures entriesNum == if HasMode(old(entries), Black) then NonBlackCount(entries) else old(entriesNum)
      ensures DirtyOnlyWhite(old(entries)) ==> DirtyOnlyWhite(entries)
    {
      for i := 0 to |entries|
        invariant |entries| == |old(entries)|
        invariant forall k :: 0 <= k < i ==> entries[k] == Ungrayed(old(entries)[k])
        invariant forall k :: i <= k < |entries| ==> entries[k] == old(entries)[k]
        invariant entriesNum == if HasMode(old(entries)[..i], Black) then NonBlackCount(entries) else old(entriesNum)
      {
        HasModePrefix(old(entries), Black, i);
        if entries[i].IsBlack() {
          var _ := CancelBlack(i);
        }
      }
      assert old(entries)[..|entries|] == old(entries);
    }

    /** `compilable?`: there are entries, and some of them are dirty or no index exists yet. */
    predicate Compilable()
      reads this
    {
      |entries| > 0 && (HasDirtyEntries(entries) || simStringDb.None?)
    }

    /** `update_sim_string_db`: the index is rebuilt from the keys of the active entries, and
        then every WHITE entry, and no other, is marked clean. */
    method UpdateSimStringDb()
      modifies `simStringDb, `entries
      ensures simStringDb == Some(IndexKeys(old(entries)))
      ensures entries == Map(old(entries), MarkedClean)
    {
      var keys := IndexKeys(entries);
      var db: seq<string> := [];
      for i := 0 to |keys|
        invariant db == keys[..i]
      {
        db := db + [keys[i]];
      }
      assert db == keys;
      simStringDb := Some(db);
      entries := Map(entries, MarkedClean);
    }

    /** `update_stop_words`: each list is its built-in list minus the words found, in the place
        it is about, in some lower-cased label. */
    method UpdateStopWords()
      modifies `stopWords
      ensures stopWords == DerivedLists(Labels(entries))
    {
      var labels := Labels(entries);
      stopWords := DerivedLists(labels);
    }

    /** `compile!`: the index is rebuilt and the WHITE entries marked clean, then the stop-word
        lists are derived from the labels. When only WHITE entries were dirty, as every operation
        here keeps it, the dictionary is no longer compilable afterwards. */
    method Compile()
      modifies `simStringDb, `entries, `stopWords
      ensures simStringDb == Some(IndexKeys(old(entries)))
      ensures entries == Map(old(entries), MarkedClean)
      ensures stopWords == DerivedLists(Labels(entries))
      ensures DirtyOnlyWhite(old(entries)) ==> !Compilable()
    {
      if DirtyOnlyWhite(entries) {
        MarkedCleanLeavesNoDirty(entries);
      }
      UpdateSimStringDb();
      UpdateStopWords();
    }

    /** `additional_entries_existency_update` */
    method AdditionalEntriesExistencyUpdate()
      modifies `additionalEntriesExists
      ensures additionalEntriesExists == HasAdditionalEntries(entries)
    {
      additionalEntriesExists := HasAdditionalEntries(entries);
    }

    /** `search_term`: the rows are gathered key by key, deduplicated, scored and filtered by
        the threshold on the approximate path; on the exact path they are listed with score 1. */
    method SearchTerm(retrieve: Retriever, q: Query, sv: Services) returns (hits: seq<Hit>)
      ensures hits == SearchHits(Context(), retrieve, q, sv)
    {
      var c := Context();
      if q.term == [] || entriesNum == 0 {
        return [];
      }
      var threshold := q.threshold.GetOr(this.threshold);
      if threshold < 1.0 {
        var keys := LookupKeys(retrieve, q.ngram, QueryNorm2(c, q, sv));
        var results := GatherRows(c, keys, q.tags);
        results := Uniq(results);
        var scored := ScoreRows(results, QueryScoring(c, q, sv));
        hits := DropBelow(scored, threshold);
      } else {
        var rows := Rows(entries, Additional(LabelColumn, q.term), q.tags, false)
                    + Rows(entries, WithoutBlack(LabelColumn, q.term), q.tags, false);
        hits := ScoreExactRows(rows, name);
      }
    }

    /** The search snapshots of several dictionaries. */
    static function Contexts(ds: seq<Dictionary>): (cs: seq<SearchContext>)
      reads set d | d in ds
      ensures |cs| == |ds| && forall i :: 0 <= i < |ds| ==> cs[i] == ds[i].Context()
    {
      if ds == [] then [] else [ds[0].Context()] + Contexts(ds[1..])
    }

    /** The hits of every dictionary, concatenated in dictionary order. */
    static method MergeSearches(ds: seq<Dictionary>, retrievers: map<string, string -> seq<string>>, q: Query, sv: Services)
      returns (all: seq<Hit>)
      ensures all == MergedHits(Contexts(ds), retrievers, q, sv)
    {
      ghost var cs := Contexts(ds);
      ghost var perDictionary := PerDictionaryHits(cs, retrievers, q, sv);
      all := [];
      for i := 0 to |ds|
        invariant all == Flatten(perDictionary[..i])
      {
        var found := ds[i].SearchTerm(RetrieverOf(retrievers, ds[i].name), q, sv);
        assert cs[i] == ds[i].Context();
        FlattenPrefix(perDictionary, i);
        all := all + found;
      }
      assert perDictionary[..|ds|] == perDictionary;
    }

    /** `search_term_top` */
    static method SearchTermTop(ds: seq<Dictionary>, retrievers: map<string, string -> seq<string>>, q: Query, sv: Services)
      returns (hits: seq<Hit>)
      ensures hits == TermTop(Contexts(ds), retrievers, q, sv)
    {
      if q.term == [] {
        return [];
      }
      var all := MergeSearches(ds, retrievers, q, sv);
      if all == [] {
        return [];
      }
      hits := KeepTopScores(all);
    }

    /** `search_term_order` */
    static method SearchTermOrder(ds: seq<Dictionary>, retrievers: map<string, string -> seq<string>>, q: Query, sv: Services)
      returns (hits: seq<Hit>)
      ensures hits == TermOrder(Contexts(ds), retrievers, q, sv)
    {
      if q.term == [] {
        return [];
      }
      var all := MergeSearches(ds, retrievers, q, sv);
      hits := SortByScoreDescending(all);
    }

    /** One label of `find_ids_by_labels`: the hits of the chosen policy, or only their
        identifiers unless verbose. */
    static method LookupLabel(term: string, ds: seq<Dictionary>, retrievers: map<string, string -> seq<string>>,
                              threshold: Option<real>, superfluous: bool, verbose: bool, ngram: bool,
                              tags: seq<string>, sv: Services)
      returns (r: LabelResult)
      ensures r == LabelLookup(Contexts(ds), retrievers, term, threshold, superfluous, verbose, ngram, tags, sv)
    {
      var q := Query(term, None, None, tags, threshold, ngram);
      var hits;
      if superfluous {
        hits := SearchTermOrder(ds, retrievers, q, sv);
      } else {
        hits := SearchTermTop(ds, retrievers, q, sv);
      }
      if verbose {
        r := Hits(hits);
      } else {
        var ids := Identifiers(hits);
        r := Ids(ids);
      }
    }

    /** `find_ids_by_labels`: every label is looked up once. `retrievers` holds the index of each
        dictionary that could be opened, by dictionary name. */
    static method FindIdsByLabels(labels: seq<string>, ds: seq<Dictionary>, retrievers: map<string, string -> seq<string>>,
                                  threshold: Option<real>, superfluous: bool, verbose: bool, ngram: bool,
                                  tags: seq<string>, sv: Services)
      returns (r: map<string, LabelResult>)
      ensures r.Keys == set l | l in labels
      ensures forall l :: l in r ==> r[l] == LabelLookup(Contexts(ds), retrievers, l, threshold, superfluous, verbose, ngram, tags, sv)
    {
      r := map[];
      for i := 0 to |labels|
        invariant r.Keys == set l | l in labels[..i]
        invariant forall l :: l in r ==> r[l] == LabelLookup(Contexts(ds), retrievers, l, threshold, superfluous, verbose, ngram, tags, sv)
      {
        var found := LookupLabel(labels[i], ds, retrievers, threshold, superfluous, verbose, ngram, tags, sv);
        r := r[labels[i] := found];
        assert labels[..i + 1] == labels[..i] + [labels[i]];
      }
      assert labels[..|labels|] == labels;
    }
  }
}
