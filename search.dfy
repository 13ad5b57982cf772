/** The term search of a dictionary (`search_term`) as a function of what it reads of the
    dictionary, and the look-up over several dictionaries under the two ranking policies
    (`search_term_top`, `search_term_order`, `find_ids_by_labels`). The database queries become
    selections over the in-memory entry sequence; the approximate index, the analyzer and the
    cosine measure are parameters. */
module Search {
  import opened Outcomes
  import opened Seqs
  import opened Similarity
  import opened Entries
  import opened Languages
  import opened Ranking

  /** What `search_term` reads of a dictionary: its name, language, default threshold, entries,
      `entries_num`, and the two memoised flags `additional_entries_exists?` and `tags_exists?`. */
  datatype SearchContext = SearchContext(name: string, language: Option<string>, threshold: real,
                                         entries: seq<Entry>, entriesNum: int,
                                         additionalEntriesExists: bool, tagExists: bool)

  /** The arguments of one look-up: the term, its optional precomputed normal forms, the tag
      filter, the optional threshold and whether the approximate index is consulted. */
  datatype Query = Query(term: string, norm1: Option<string>, norm2: Option<string>,
                         tags: seq<string>, threshold: Option<real>, ngram: bool)

  /** The collaborators of a search: `normalize(text, analyzer)` stands for the analyzer call
      behind `normalize1`/`normalize2`, `cosine(a, b, n)` for the cosine of the Japanese score. */
  datatype Services = Services(normalize: (string, string) -> string, cosine: (string, string, nat) -> real)

  /** The approximate index of a dictionary, when it could be opened: `retrieve(norm2)`. */
  type Retriever = Option<string -> seq<string>>

  /** The column a search query selects on. */
  datatype Column = LabelColumn | Norm2Column

  /** The entry scopes the search queries use: `additional_entries` (WHITE and dirty) or
      `without_black`, restricted to one value of one column. */
  datatype Scope = Additional(column: Column, value: string) | WithoutBlack(column: Column, value: string)

  predicate InScope(e: Entry, s: Scope) {
    && (if s.Additional? then e.IsAdditional() else !e.IsBlack())
    && (if s.column == LabelColumn then e.surface == s.value else e.norm2 == Some(s.value))
  }

  /** The rows one entry gives in `left_outer_joins(:tags)`: one per tag, or a single row when it
      has none; under a tag filter, one per tag of the filter. */
  function JoinedRows(e: Entry, tags: seq<string>): (n: nat)
    ensures n > 0 <==> tags == [] || exists k :: 0 <= k < |e.tags| && e.tags[k] in tags
  {
    if tags == [] then (if e.tags == [] then 1 else |e.tags|)
    else Count(e.tags, t => t in tags)
  }

  /** `to_result_hash`, or `to_result_hash_with_tags` when `withTags`. */
  function ToResultHash(e: Entry, withTags: bool): ResultHash {
    ResultHash(e.surface, e.norm1, e.norm2, e.identifier, if withTags then Some(TagValues(e.tags)) else None)
  }

  /** The result of one query: each entry of the scope once per joined row, in entry order. */
  function Rows(es: seq<Entry>, scope: Scope, tags: seq<string>, withTags: bool): seq<ResultHash> {
    if es == [] then []
    else
      var e := es[|es| - 1];
      Rows(es[..|es| - 1], scope, tags, withTags) + (if InScope(e, scope) then seq(JoinedRows(e, tags), _ => ToResultHash(e, withTags)) else [])
  }

  /** A row comes from exactly the entries of the scope that survive the tag filter. */
  lemma {:induction false} RowsMembership(es: seq<Entry>, scope: Scope, tags: seq<string>, withTags: bool, h: ResultHash)
    ensures h in Rows(es, scope, tags, withTags) <==>
              exists i :: 0 <= i < |es| && InScope(es[i], scope) && JoinedRows(es[i], tags) > 0 && ToResultHash(es[i], withTags) == h
  {
    if es != [] {
      var init := es[..|es| - 1];
      var e := es[|es| - 1];
      RowsMembership(init, scope, tags, withTags, h);
      assert forall i :: 0 <= i < |init| ==> init[i] == es[i];
      var tail := if InScope(e, scope) then seq(JoinedRows(e, tags), _ => ToResultHash(e, withTags)) else [];
      assert h in tail <==> InScope(e, scope) && JoinedRows(e, tags) > 0 && ToResultHash(e, withTags) == h by {
        if InScope(e, scope) && JoinedRows(e, tags) > 0 { assert tail[0] == ToResultHash(e, withTags); }
      }
    }
  }

  /** The rows of one index key: the uncompiled WHITE entries (only when the dictionary has some)
      and the non-BLACK entries with that norm2. The additional rows stay in their plain form. */
  function KeyRows(c: SearchContext, key: string, tags: seq<string>): seq<ResultHash> {
    (if c.additionalEntriesExists then Rows(c.entries, Additional(Norm2Column, key), tags, false) else [])
    + Rows(c.entries, WithoutBlack(Norm2Column, key), tags, c.tagExists)
  }

  /** `results += ...` over the keys, in key order. */
  function ApproxRows(c: SearchContext, keys: seq<string>, tags: seq<string>): seq<ResultHash> {
    if keys == [] then [] else ApproxRows(c, keys[..|keys| - 1], tags) + KeyRows(c, keys[|keys| - 1], tags)
  }

  /** The index keys: what the index retrieves for `norm2` when it is consulted and finds
      something, otherwise `[norm2]` alone. */
  function LookupKeys(retrieve: Retriever, ngram: bool, norm2: string): (keys: seq<string>)
    ensures keys != []
    ensures ngram && retrieve.Some? && retrieve.value(norm2) != [] ==> keys == retrieve.value(norm2)
    ensures !(ngram && retrieve.Some? && retrieve.value(norm2) != []) ==> keys == [norm2]
  {
    var found := if ngram && retrieve.Some? then retrieve.value(norm2) else [];
    if found != [] then found else [norm2]
  }

  /** `str_sim.call(term, e[:label], norm1, e[:norm1], norm2, e[:norm2])` with the dictionary's
      scorer; a nil norm of the row is scored as the empty string. */
  function RowScore(language: Option<string>, cosine: (string, string, nat) -> real, term: string,
                    norm1: string, norm2: string, h: ResultHash): real {
    Score(StrSim(language), cosine, term, h.surface, norm1, h.norm1.GetOr(""), norm2, h.norm2.GetOr(""))
  }

  /** How the rows of one search are scored, and the dictionary name they are tagged with. */
  datatype Scoring = Scoring(rate: ResultHash -> real, dictionary: string)

  /** `e.merge!(score: ..., dictionary: name)` */
  function HitOf(s: Scoring, h: ResultHash): Hit {
    Hit(h, s.rate(h), s.dictionary)
  }

  function Scored(rows: seq<ResultHash>, s: Scoring): (r: seq<Hit>)
    ensures |r| == |rows|
    ensures forall i :: 0 <= i < |rows| ==> r[i] == HitOf(s, rows[i])
    ensures forall h :: h in r ==> h.dictionary == s.dictionary
  {
    if rows == [] then []
    else
      var init := rows[..|rows| - 1];
      assert forall i :: 0 <= i < |init| ==> init[i] == rows[i];
      Scored(init, s) + [HitOf(s, rows[|rows| - 1])]
  }

  /** `delete_if { |e| e[:score] < threshold }` */
  function AtLeast(hits: seq<Hit>, threshold: real): (r: seq<Hit>)
    ensures forall h :: h in r <==> h in hits && h.score >= threshold
    ensures forall h :: multiset(r)[h] == if h.score >= threshold then multiset(hits)[h] else 0
  {
    if hits == [] then []
    else
      var h := hits[|hits| - 1];
      assert hits == hits[..|hits| - 1] + [h];
      AtLeast(hits[..|hits| - 1], threshold) + (if h.score >= threshold then [h] else [])
  }

  /** The rows of the exact path: uncompiled WHITE entries, then non-BLACK entries, with the
      label equal to the term; both in plain form. */
  function ExactRows(c: SearchContext, term: string, tags: seq<string>): seq<ResultHash> {
    Rows(c.entries, Additional(LabelColumn, term), tags, false) + Rows(c.entries, WithoutBlack(LabelColumn, term), tags, false)
  }

  /** `e.merge!(score: 1, dictionary: name)` */
  function ScoredOne(rows: seq<ResultHash>, name: string): (r: seq<Hit>)
    ensures |r| == |rows|
    ensures forall i :: 0 <= i < |rows| ==> r[i] == Hit(rows[i], 1.0, name)
    ensures forall h :: h in r ==> h.dictionary == name
  {
    if rows == [] then [] else ScoredOne(rows[..|rows| - 1], name) + [Hit(rows[|rows| - 1], 1.0, name)]
  }

  /** The normal forms of the query: the given ones, or the analyzer's for this dictionary. */
  function QueryNorm1(c: SearchContext, q: Query, sv: Services): string {
    q.norm1.GetOr(sv.normalize(q.term, Normalizer1(c.language)))
  }

  function QueryNorm2(c: SearchContext, q: Query, sv: Services): string {
    q.norm2.GetOr(sv.normalize(q.term, Normalizer2(c.language)))
  }

  function QueryScoring(c: SearchContext, q: Query, sv: Services): Scoring {
    var norm1 := QueryNorm1(c, q, sv);
    var norm2 := QueryNorm2(c, q, sv);
    Scoring(h => RowScore(c.language, sv.cosine, q.term, norm1, norm2, h), c.name)
  }

  /** The threshold in force: the given one, or the dictionary's. */
  function Threshold(c: SearchContext, q: Query): real {
    q.threshold.GetOr(c.threshold)
  }

  /** `search_term` */
  function SearchHits(c: SearchContext, retrieve: Retriever, q: Query, sv: Services): (hits: seq<Hit>)
    ensures q.term == [] || c.entriesNum == 0 ==> hits == []
    ensures forall h :: h in hits ==> h.dictionary == c.name
  {
    if q.term == [] || c.entriesNum == 0 then []
    else if Threshold(c, q) < 1.0 then
      var rows := Uniq(ApproxRows(c, LookupKeys(retrieve, q.ngram, QueryNorm2(c, q, sv)), q.tags));
      var scored := Scored(rows, QueryScoring(c, q, sv));
      AtLeast(scored, Threshold(c, q))
    else
      ScoredOne(ExactRows(c, q.term, q.tags), c.name)
  }

  /** Whether a result row reports entry `e`, in either form. */
  predicate IsRowOf(h: ResultHash, e: Entry) {
    h == ToResultHash(e, false) || h == ToResultHash(e, true)
  }

  /** Every row of one index key reports a non-BLACK entry whose norm2 is that key, and every
      non-BLACK entry with that norm2 that passes the tag filter is reported. */
  lemma KeyRowsSpec(c: SearchContext, key: string, tags: seq<string>, h: ResultHash)
    ensures h in KeyRows(c, key, tags) ==>
              exists i :: 0 <= i < |c.entries| && !c.entries[i].IsBlack() && c.entries[i].norm2 == Some(key) &&
                          JoinedRows(c.entries[i], tags) > 0 && IsRowOf(h, c.entries[i])
    ensures (exists i :: 0 <= i < |c.entries| && !c.entries[i].IsBlack() && c.entries[i].norm2 == Some(key) &&
                         JoinedRows(c.entries[i], tags) > 0 && h == ToResultHash(c.entries[i], c.tagExists)) ==>
              h in KeyRows(c, key, tags)
  {
    RowsMembership(c.entries, Additional(Norm2Column, key), tags, false, h);
    RowsMembership(c.entries, WithoutBlack(Norm2Column, key), tags, c.tagExists, h);
  }

  /** A row of the approximate path comes from one of the keys, and every key's rows are there. */
  lemma {:induction false} ApproxRowsMembership(c: SearchContext, keys: seq<string>, tags: seq<string>, h: ResultHash)
    ensures h in ApproxRows(c, keys, tags) <==> exists j :: 0 <= j < |keys| && h in KeyRows(c, keys[j], tags)
  {
    if keys != [] {
      var init := keys[..|keys| - 1];
      ApproxRowsMembership(c, init, tags, h);
      assert forall j :: 0 <= j < |init| ==> init[j] == keys[j];
    }
  }

  /** The approximate path (threshold below 1): no hit twice, every hit scores at least the
      threshold with the dictionary's scorer, and reports a non-BLACK entry whose norm2 is one of
      the index keys and that passes the tag filter. */
  lemma ApproxHitsSound(c: SearchContext, retrieve: Retriever, q: Query, sv: Services, hit: Hit)
    requires q.term != [] && c.entriesNum != 0 && Threshold(c, q) < 1.0
    ensures Distinct(SearchHits(c, retrieve, q, sv))
    ensures hit in SearchHits(c, retrieve, q, sv) ==>
              && hit.score >= Threshold(c, q)
              && hit.score == QueryScoring(c, q, sv).rate(hit.row)
              && exists j, i :: 0 <= j < |LookupKeys(retrieve, q.ngram, QueryNorm2(c, q, sv))| && 0 <= i < |c.entries| &&
                   var e := c.entries[i];
                   !e.IsBlack() && e.norm2 == Some(LookupKeys(retrieve, q.ngram, QueryNorm2(c, q, sv))[j]) &&
                   JoinedRows(e, q.tags) > 0 && IsRowOf(hit.row, e)
  {
    var keys := LookupKeys(retrieve, q.ngram, QueryNorm2(c, q, sv));
    var s := QueryScoring(c, q, sv);
    var rows := Uniq(ApproxRows(c, keys, q.tags));
    var scored := Scored(rows, s);
    ScoredDistinct(rows, s);
    AtLeastDistinct(scored, Threshold(c, q));
    if hit in SearchHits(c, retrieve, q, sv) {
      var k :| 0 <= k < |scored| && scored[k] == hit;
      ApproxRowsMembership(c, keys, q.tags, rows[k]);
      var j :| 0 <= j < |keys| && rows[k] in KeyRows(c, keys[j], q.tags);
      KeyRowsSpec(c, keys[j], q.tags, rows[k]);
    }
  }

  /** The approximate path finds every non-BLACK entry whose norm2 is an index key, that passes
      the tag filter and whose score reaches the threshold. */
  lemma ApproxHitsComplete(c: SearchContext, retrieve: Retriever, q: Query, sv: Services, i: nat, j: nat)
    requires q.term != [] && c.entriesNum != 0 && Threshold(c, q) < 1.0
    requires i < |c.entries| && j < |LookupKeys(retrieve, q.ngram, QueryNorm2(c, q, sv))|
    requires !c.entries[i].IsBlack() && c.entries[i].norm2 == Some(LookupKeys(retrieve, q.ngram, QueryNorm2(c, q, sv))[j])
    requires JoinedRows(c.entries[i], q.tags) > 0
    requires QueryScoring(c, q, sv).rate(ToResultHash(c.entries[i], c.tagExists)) >= Threshold(c, q)
    ensures Hit(ToResultHash(c.entries[i], c.tagExists), QueryScoring(c, q, sv).rate(ToResultHash(c.entries[i], c.tagExists)), c.name) in SearchHits(c, retrieve, q, sv)
  {
    var keys := LookupKeys(retrieve, q.ngram, QueryNorm2(c, q, sv));
    var s := QueryScoring(c, q, sv);
    var h := ToResultHash(c.entries[i], c.tagExists);
    KeyRowsSpec(c, keys[j], q.tags, h);
    ApproxRowsMembership(c, keys, q.tags, h);
    var rows := Uniq(ApproxRows(c, keys, q.tags));
    var k :| 0 <= k < |rows| && rows[k] == h;
    var scored := Scored(rows, s);
    var hit := HitOf(s, h);
    assert scored[k] == hit;
    assert hit.dictionary == c.name && hit.score >= Threshold(c, q);
    assert hit in scored;
    assert hit in AtLeast(scored, Threshold(c, q));
    ApproxPath(c, retrieve, q, sv);
  }

  lemma ApproxPath(c: SearchContext, retrieve: Retriever, q: Query, sv: Services)
    requires q.term != [] && c.entriesNum != 0 && Threshold(c, q) < 1.0
    ensures SearchHits(c, retrieve, q, sv) ==
              AtLeast(Scored(Uniq(ApproxRows(c, LookupKeys(retrieve, q.ngram, QueryNorm2(c, q, sv)), q.tags)), QueryScoring(c, q, sv)),
                      Threshold(c, q))
  {
  }

  lemma ScoredDistinct(rows: seq<ResultHash>, s: Scoring)
    requires Distinct(rows)
    ensures Distinct(Scored(rows, s))
  {
    var r := Scored(rows, s);
    forall i, j | 0 <= i < j < |r| ensures r[i] != r[j] {
      assert r[i].row == rows[i] && r[j].row == rows[j];
    }
  }

  lemma {:induction false} AtLeastDistinct(hits: seq<Hit>, threshold: real)
    requires Distinct(hits)
    ensures Distinct(AtLeast(hits, threshold))
  {
    if hits != [] {
      var init := hits[..|hits| - 1];
      var h := hits[|hits| - 1];
      AtLeastDistinct(init, threshold);
      assert h !in init;
      var r := AtLeast(init, threshold);
      if h.score >= threshold {
        assert h !in r;
        assert AtLeast(hits, threshold) == r + [h];
      }
    }
  }

  /** The exact path (threshold 1 or more): every hit has score 1 and reports a non-BLACK entry
      whose label is the term and that passes the tag filter; every such entry is reported. */
  lemma ExactHitsSpec(c: SearchContext, retrieve: Retriever, q: Query, sv: Services, hit: Hit)
    requires q.term != [] && c.entriesNum != 0 && Threshold(c, q) >= 1.0
    ensures hit in SearchHits(c, retrieve, q, sv) <==>
              && hit.score == 1.0 && hit.dictionary == c.name
              && exists i :: 0 <= i < |c.entries| && !c.entries[i].IsBlack() && c.entries[i].surface == q.term &&
                             JoinedRows(c.entries[i], q.tags) > 0 && hit.row == ToResultHash(c.entries[i], false)
  {
    var rows := ExactRows(c, q.term, q.tags);
    RowsMembership(c.entries, Additional(LabelColumn, q.term), q.tags, false, hit.row);
    RowsMembership(c.entries, WithoutBlack(LabelColumn, q.term), q.tags, false, hit.row);
    var r := ScoredOne(rows, c.name);
    if hit in r {
      var k :| 0 <= k < |r| && r[k] == hit;
      assert hit.row in rows;
    }
    if hit.score == 1.0 && hit.dictionary == c.name && hit.row in rows {
      var k :| 0 <= k < |rows| && rows[k] == hit.row;
      assert r[k] == hit;
    }
  }

  /** The exact path does not deduplicate: an uncompiled WHITE entry is found both as an
      additional entry and as a non-BLACK one, so it is reported twice. */
  lemma ExactSearchReportsUncompiledWhiteTwice(e: Entry, name: string, retrieve: Retriever, sv: Services)
    requires e.mode == White && e.dirty && e.surface != [] && e.tags == []
    ensures var c := SearchContext(name, None, 1.0, [e], 1, true, false);
            var q := Query(e.surface, None, None, [], None, false);
            SearchHits(c, retrieve, q, sv) == [Hit(ToResultHash(e, false), 1.0, name), Hit(ToResultHash(e, false), 1.0, name)]
  {
    var h := ToResultHash(e, false);
    assert [e][..0] == [];
    assert Rows([e], Additional(LabelColumn, e.surface), [], false) == [h];
    assert Rows([e], WithoutBlack(LabelColumn, e.surface), [], false) == [h];
  }

  /** A missing threshold means the dictionary's own. */
  lemma ThresholdDefaults(c: SearchContext, retrieve: Retriever, q: Query, sv: Services)
    ensures SearchHits(c, retrieve, q.(threshold := None), sv) == SearchHits(c, retrieve, q.(threshold := Some(c.threshold)), sv)
  {
  }

  /** The index of a dictionary in a look-up: `ssdbs[dic.name]`, nil when it is absent. */
  function RetrieverOf(retrievers: map<string, string -> seq<string>>, name: string): Retriever {
    if name in retrievers then Some(retrievers[name]) else None
  }

  /** The hits of each dictionary, in dictionary order. */
  function PerDictionaryHits(cs: seq<SearchContext>, retrievers: map<string, string -> seq<string>>, q: Query, sv: Services): (r: seq<seq<Hit>>)
    ensures |r| == |cs|
    ensures forall j :: 0 <= j < |cs| ==> r[j] == SearchHits(cs[j], RetrieverOf(retrievers, cs[j].name), q, sv)
  {
    seq(|cs|, j requires 0 <= j < |cs| => SearchHits(cs[j], RetrieverOf(retrievers, cs[j].name), q, sv))
  }

  /** `dictionaries.inject([]) { |sum, dic| sum + dic.search_term(...) }` */
  function MergedHits(cs: seq<SearchContext>, retrievers: map<string, string -> seq<string>>, q: Query, sv: Services): seq<Hit> {
    Flatten(PerDictionaryHits(cs, retrievers, q, sv))
  }

  /** A merged hit is a hit of one of the dictionaries, and every dictionary's hits are kept. */
  lemma MergedHitsMembership(cs: seq<SearchContext>, retrievers: map<string, string -> seq<string>>, q: Query, sv: Services, hit: Hit)
    ensures hit in MergedHits(cs, retrievers, q, sv) <==>
              exists j :: 0 <= j < |cs| && hit in SearchHits(cs[j], RetrieverOf(retrievers, cs[j].name), q, sv)
  {
    FlattenMembership(PerDictionaryHits(cs, retrievers, q, sv), hit);
  }

  /** `search_term_top` */
  function TermTop(cs: seq<SearchContext>, retrievers: map<string, string -> seq<string>>, q: Query, sv: Services): seq<Hit> {
    if q.term == [] then []
    else
      var all := MergedHits(cs, retrievers, q, sv);
      if all == [] then [] else TopHits(all)
  }

  /** `search_term_order` */
  function TermOrder(cs: seq<SearchContext>, retrievers: map<string, string -> seq<string>>, q: Query, sv: Services): seq<Hit> {
    if q.term == [] then [] else SortByScoreDescending(MergedHits(cs, retrievers, q, sv))
  }

  /** `search_term_top` is empty exactly for an empty term or when no dictionary has a hit;
      otherwise it keeps exactly the hits of any dictionary that carry the best score. */
  lemma TermTopSpec(cs: seq<SearchContext>, retrievers: map<string, string -> seq<string>>, q: Query, sv: Services, hit: Hit)
    ensures TermTop(cs, retrievers, q, sv) == [] <==> q.term == [] || MergedHits(cs, retrievers, q, sv) == []
    ensures hit in TermTop(cs, retrievers, q, sv) <==>
              && q.term != []
              && (exists j :: 0 <= j < |cs| && hit in SearchHits(cs[j], RetrieverOf(retrievers, cs[j].name), q, sv))
              && forall h :: h in MergedHits(cs, retrievers, q, sv) ==> h.score <= hit.score
  {
    var all := MergedHits(cs, retrievers, q, sv);
    MergedHitsMembership(cs, retrievers, q, sv, hit);
    if q.term != [] && all != [] {
      TopHitsSpec(all);
      var m := MaxScore(all);
      if hit in all && forall h :: h in all ==> h.score <= hit.score {
        assert hit.score == m by {
          var k :| 0 <= k < |all| && all[k].score == m;
        }
      }
    }
  }

  /** `search_term_order` lists every hit of every dictionary, as often as it occurs, in
      non-increasing score order, and its head carries the score `search_term_top` keeps. */
  lemma TermOrderSpec(cs: seq<SearchContext>, retrievers: map<string, string -> seq<string>>, q: Query, sv: Services)
    requires q.term != []
    ensures IsNonIncreasing(TermOrder(cs, retrievers, q, sv))
    ensures multiset(TermOrder(cs, retrievers, q, sv)) == multiset(MergedHits(cs, retrievers, q, sv))
    ensures TermTop(cs, retrievers, q, sv) != [] ==>
              TermOrder(cs, retrievers, q, sv) != [] &&
              forall h :: h in TermTop(cs, retrievers, q, sv) ==> h.score == TermOrder(cs, retrievers, q, sv)[0].score
  {
    var all := MergedHits(cs, retrievers, q, sv);
    if all != [] {
      TopIsHeadOfOrder(all);
      TopHitsSpec(all);
    }
  }

  /** What `find_ids_by_labels` stores for one label. */
  datatype LabelResult = Ids(ids: seq<string>) | Hits(hits: seq<Hit>)

  /** One label's look-up: the top or the ordered policy, reduced to identifiers unless verbose.
      The dictionaries' own thresholds apply when `threshold` is nil. */
  function LabelLookup(cs: seq<SearchContext>, retrievers: map<string, string -> seq<string>>, term: string,
                       threshold: Option<real>, superfluous: bool, verbose: bool, ngram: bool, tags: seq<string>,
                       sv: Services): (r: LabelResult)
    ensures r.Ids? <==> !verbose
  {
    var q := Query(term, None, None, tags, threshold, ngram);
    var hits := if superfluous then TermOrder(cs, retrievers, q, sv) else TermTop(cs, retrievers, q, sv);
    if verbose then Hits(hits) else Ids(Map(hits, IdentifierOf))
  }

  /** `hits.map { |h| h[:identifier] }` */
  function IdentifierOf(h: Hit): string {
    h.row.identifier
  }

  /** Every hit of any search reports a non-BLACK entry of its dictionary. */
  lemma HitsReportNonBlackEntries(c: SearchContext, retrieve: Retriever, q: Query, sv: Services, hit: Hit)
    requires hit in SearchHits(c, retrieve, q, sv)
    ensures exists i :: 0 <= i < |c.entries| && !c.entries[i].IsBlack() && IsRowOf(hit.row, c.entries[i])
  {
    if Threshold(c, q) < 1.0 {
      ApproxHitsSound(c, retrieve, q, sv, hit);
    } else {
      ExactHitsSpec(c, retrieve, q, sv, hit);
    }
  }

  /** Both ranking policies only keep hits of the merged list. */
  lemma PolicyHitsAreMerged(cs: seq<SearchContext>, retrievers: map<string, string -> seq<string>>, q: Query, sv: Services,
                            superfluous: bool, hit: Hit)
    requires hit in (if superfluous then TermOrder(cs, retrievers, q, sv) else TermTop(cs, retrievers, q, sv))
    ensures hit in MergedHits(cs, retrievers, q, sv)
  {
    if superfluous {
      assert hit in multiset(TermOrder(cs, retrievers, q, sv));
    } else {
      TermTopSpec(cs, retrievers, q, sv, hit);
    }
  }

  /** Every identifier `find_ids_by_labels` returns is the identifier of a non-BLACK entry of
      one of the dictionaries. */
  lemma LabelLookupIdsAreNonBlack(cs: seq<SearchContext>, retrievers: map<string, string -> seq<string>>, term: string,
                                  threshold: Option<real>, superfluous: bool, ngram: bool, tags: seq<string>,
                                  sv: Services, id: string)
    requires id in LabelLookup(cs, retrievers, term, threshold, superfluous, false, ngram, tags, sv).ids
    ensures exists j, i :: 0 <= j < |cs| && 0 <= i < |cs[j].entries| && !cs[j].entries[i].IsBlack() &&
                           cs[j].entries[i].identifier == id
  {
    var q := Query(term, None, None, tags, threshold, ngram);
    var hits := if superfluous then TermOrder(cs, retrievers, q, sv) else TermTop(cs, retrievers, q, sv);
    var k :| 0 <= k < |hits| && hits[k].row.identifier == id;
    var hit := hits[k];
    PolicyHitsAreMerged(cs, retrievers, q, sv, superfluous, hit);
    MergedHitsAreNonBlack(cs, retrievers, q, sv, hit);
  }

  lemma MergedHitsAreNonBlack(cs: seq<SearchContext>, retrievers: map<string, string -> seq<string>>, q: Query, sv: Services, hit: Hit)
    requires hit in MergedHits(cs, retrievers, q, sv)
    ensures exists j, i :: 0 <= j < |cs| && 0 <= i < |cs[j].entries| && !cs[j].entries[i].IsBlack() &&
                           cs[j].entries[i].identifier == hit.row.identifier
  {
    MergedHitsMembership(cs, retrievers, q, sv, hit);
    var j :| 0 <= j < |cs| && hit in SearchHits(cs[j], RetrieverOf(retrievers, cs[j].name), q, sv);
    HitsReportNonBlackEntries(cs[j], RetrieverOf(retrievers, cs[j].name), q, sv, hit);
    var i :| 0 <= i < |cs[j].entries| && !cs[j].entries[i].IsBlack() && IsRowOf(hit.row, cs[j].entries[i]);
    RowIdentifier(hit.row, cs[j].entries[i]);
  }

  lemma RowIdentifier(h: ResultHash, e: Entry)
    requires IsRowOf(h, e)
    ensures h.identifier == e.identifier
  {
  }
}
