/** Search hits and the two ranking policies applied to the hits of several dictionaries: keep
    only the best-scored hits (ties kept), or keep every hit ordered by descending score. */
module Ranking {
  import opened Outcomes
  import opened Seqs

  /** `to_result_hash` / `to_result_hash_with_tags`: the entry fields a hit reports; `tags` is the
      `|`-joined tag list, present only in the with-tags form. */
  datatype ResultHash = ResultHash(surface: string, norm1: Option<string>, norm2: Option<string>,
                                   identifier: string, tags: Option<string>)

  /** A result hash merged with its `score` and the `dictionary` name. */
  datatype Hit = Hit(row: ResultHash, score: real, dictionary: string)

  /** `entries.max { |a, b| a[:score] <=> b[:score] }[:score]` */
  function MaxScore(hits: seq<Hit>): (m: real)
    requires hits != []
    ensures exists i :: 0 <= i < |hits| && hits[i].score == m
    ensures forall i :: 0 <= i < |hits| ==> hits[i].score <= m
  {
    if |hits| == 1 then hits[0].score
    else
      var m := MaxScore(hits[1..]);
      assert forall i :: 1 <= i < |hits| ==> hits[i] == hits[1..][i - 1];
      if hits[0].score >= m then hits[0].score else m
  }

  /** The hits that `search_term_top` keeps. */
  function TopHits(hits: seq<Hit>): seq<Hit>
    requires hits != []
  {
    Filter(hits, (h: Hit) => h.score >= MaxScore(hits))
  }

  /** Exactly the hits with the maximum score stay (at least one), each as often as it occurred,
      in their original order. */
  lemma TopHitsSpec(hits: seq<Hit>)
    requires hits != []
    ensures TopHits(hits) != []
    ensures forall h :: h in TopHits(hits) <==> h in hits && h.score == MaxScore(hits)
    ensures forall h :: multiset(TopHits(hits))[h] == if h.score == MaxScore(hits) then multiset(hits)[h] else 0
    ensures IsSubsequence(TopHits(hits), hits)
  {
    FilterOrder(hits, (h: Hit) => h.score >= MaxScore(hits));
    var k :| 0 <= k < |hits| && hits[k].score == MaxScore(hits);
    assert hits[k] in TopHits(hits);
  }

  /** The ranking of `search_term_top` after the empty checks:
      `entries.delete_if { |e| e[:score] < max_score }`. */
  method KeepTopScores(hits: seq<Hit>) returns (r: seq<Hit>)
    requires hits != []
    ensures r == TopHits(hits)
  {
    var maxScore := MaxScore(hits);
    ghost var keep := (h: Hit) => h.score >= maxScore;
    r := [];
    for i := 0 to |hits|
      invariant r == Filter(hits[..i], keep)
    {
      FilterPrefix(hits, i, keep);
      if hits[i].score >= maxScore {
        r := r + [hits[i]];
      }
    }
    assert hits[..|hits|] == hits;
  }

  predicate IsNonIncreasing(hits: seq<Hit>) {
    forall i, j :: 0 <= i < j < |hits| ==> hits[i].score >= hits[j].score
  }

  /** Insert a hit before the first hit with a lower score. */
  function InsertByScore(h: Hit, sorted: seq<Hit>): (r: seq<Hit>)
    requires IsNonIncreasing(sorted)
    ensures IsNonIncreasing(r)
    ensures multiset(r) == multiset(sorted) + multiset{h}
  {
    if sorted == [] then [h]
    else if h.score >= sorted[0].score then [h] + sorted
    else
      var rest := InsertByScore(h, sorted[1..]);
      assert sorted == [sorted[0]] + sorted[1..];
      InsertedBelowHead(sorted[0], h, sorted[1..], rest);
      [sorted[0]] + rest
  }

  lemma InsertedBelowHead(head: Hit, h: Hit, tail: seq<Hit>, rest: seq<Hit>)
    requires IsNonIncreasing([head] + tail) && h.score < head.score
    requires IsNonIncreasing(rest) && multiset(rest) == multiset(tail) + multiset{h}
    ensures IsNonIncreasing([head] + rest)
  {
    forall j | 0 <= j < |rest| ensures rest[j].score <= head.score {
      assert rest[j] in multiset(rest);
      if rest[j] != h {
        assert rest[j] in multiset(tail);
        var k :| 0 <= k < |tail| && tail[k] == rest[j];
        assert ([head] + tail)[k + 1] == tail[k] && ([head] + tail)[0] == head;
      }
    }
    forall i, j | 0 <= i < j < |[head] + rest| ensures ([head] + rest)[i].score >= ([head] + rest)[j].score {
      if i > 0 {
        assert ([head] + rest)[i] == rest[i - 1] && ([head] + rest)[j] == rest[j - 1];
      } else {
        assert ([head] + rest)[j] == rest[j - 1];
      }
    }
  }

  /** `entries.sort_by { |e| e[:score] }.reverse`: the same hits in non-increasing score order.
      Ruby's sort is not stable, so the order among equal scores is the model's choice. */
  function SortByScoreDescending(hits: seq<Hit>): (r: seq<Hit>)
    ensures IsNonIncreasing(r)
    ensures multiset(r) == multiset(hits)
  {
    if hits == [] then []
    else
      assert hits == [hits[0]] + hits[1..];
      InsertByScore(hits[0], SortByScoreDescending(hits[1..]))
  }

  /** The two policies agree on the best hits: the top-score hits are exactly the hits at the
      head of the sorted list that carry its first score. */
  lemma TopIsHeadOfOrder(hits: seq<Hit>)
    requires hits != []
    ensures var sorted := SortByScoreDescending(hits);
            sorted != [] && sorted[0].score == MaxScore(hits)
  {
    var sorted := SortByScoreDescending(hits);
    assert |sorted| == |hits| by {
      assert |multiset(sorted)| == |multiset(hits)|;
    }
    var k :| 0 <= k < |hits| && hits[k].score == MaxScore(hits);
    assert hits[k] in multiset(sorted);
    assert sorted[0] in multiset(hits);
  }
}
