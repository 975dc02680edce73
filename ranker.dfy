/**
 * `NoveltyRanker` of src/paper_review/agents/ranker.py: score the arXiv
 * papers in place, keep the scored ones, sort them by total score
 * (descending, stable) and keep the first `n`.
 */
module Ranker {
  import opened Wrappers
  import opened Text
  import opened Llm
  import opened Papers
  import opened Filters
  import opened Scoring
  import opened StableSort

  /**
   * The ranker's configuration (`novelty_filter.enabled`, default true, and
   * `top_papers_count`, default 10) and its model: the reply the model gives
   * for a paper's metadata, and `json.loads`.
   */
  datatype RankerSettings = RankerSettings(
    enabled: bool,
    topPapersCount: int,
    llm: PaperMetadata -> LlmOutcome,
    decode: Decoder)

  /** `top_n or self.top_papers_count`: an absent or zero `top_n` falls back to the configured count. */
  function Limit(cfg: RankerSettings, topN: Option<int>): (n: int)
    ensures topN.Some? && topN.value != 0 ==> n == topN.value
    ensures topN.None? || topN.value == 0 ==> n == cfg.topPapersCount
  {
    if topN.Some? && topN.value != 0 then topN.value else cfg.topPapersCount
  }

  /** The score `_score_paper` gives a paper. */
  function ScoreFor(cfg: RankerSettings, m: PaperMetadata): NoveltyScore {
    ScorePaper(cfg.llm(m), cfg.decode)
  }

  /** `[p for p in papers if p.novelty_score is not None]`. */
  function Scored(papers: seq<Paper>): (r: seq<Paper>)
    reads set p | p in papers
    ensures forall p :: p in r ==> p in papers && p.noveltyScore.Some?
    ensures forall p :: p in papers && p.noveltyScore.Some? ==> p in r
    ensures |r| <= |papers|
  {
    if |papers| == 0 then []
    else (if papers[0].noveltyScore.Some? then [papers[0]] else []) + Scored(papers[1..])
  }

  /** The sort key of each scored paper. */
  function Totals(ps: seq<Paper>): (keys: seq<real>)
    reads set p | p in ps
    requires forall p :: p in ps ==> p.noveltyScore.Some?
    ensures |keys| == |ps|
    ensures forall i :: 0 <= i < |ps| ==> keys[i] == ps[i].noveltyScore.value.totalScore
  {
    seq(|ps|, i reads set p | p in ps requires 0 <= i < |ps| && ps[i].noveltyScore.Some? =>
      ps[i].noveltyScore.value.totalScore)
  }

  /** The papers `rank_papers` returns once the scores are in: the first `n` of the sorted scored papers. */
  function Ranked(papers: seq<Paper>, n: int): (r: seq<Paper>)
    reads set p | p in papers
  {
    PyTake(SortByKeyDesc(Scored(papers), Totals(Scored(papers))), n)
  }

  /**
   * The ranking reads only the scores: when no paper's score changes, the
   * scored list and its sort keys are as they were, whatever else changed.
   */
  twostate lemma {:induction false} ScoredReadsScores(papers: seq<Paper>)
    requires forall p :: p in papers ==> p.noveltyScore == old(p.noveltyScore)
    ensures Scored(papers) == old(Scored(papers))
    ensures Totals(Scored(papers)) == old(Totals(Scored(papers)))
  {
    if |papers| > 0 {
      assert papers[0] in papers;
      assert forall p :: p in papers[1..] ==> p in papers;
      ScoredReadsScores(papers[1..]);
    }
  }

  /**
   * `rank_papers`. Disabled, or with no more papers than the limit, it
   * returns its input and scores nothing. Otherwise every arXiv paper's
   * `novelty_score` is assigned in place, other papers keep theirs, and the
   * result is `Ranked` of the input.
   */
  method RankPapers(cfg: RankerSettings, papers: seq<Paper>, topN: Option<int>) returns (result: seq<Paper>)
    modifies set p | p in papers
    ensures forall p :: p in papers ==>
      p.pdfPath == old(p.pdfPath) && p.fullText == old(p.fullText) && p.imagePaths == old(p.imagePaths)
    ensures !cfg.enabled || |papers| <= Limit(cfg, topN) ==>
      result == papers && forall p :: p in papers ==> p.noveltyScore == old(p.noveltyScore)
    ensures cfg.enabled && |papers| > Limit(cfg, topN) ==>
      && (forall p :: p in papers ==>
            p.noveltyScore == (if p.metadata.source == Arxiv then Some(ScoreFor(cfg, p.metadata)) else old(p.noveltyScore)))
      && result == Ranked(papers, Limit(cfg, topN))
    ensures forall p :: p in result ==> p in papers
    ensures Distinct(papers) ==> Distinct(result)
  {
    if !cfg.enabled {
      return papers;
    }
    var n := Limit(cfg, topN);
    if |papers| <= n {
      return papers;
    }
    var i := 0;
    while i < |papers|
      invariant 0 <= i <= |papers|
      invariant forall p :: p in papers ==>
        p.pdfPath == old(p.pdfPath) && p.fullText == old(p.fullText) && p.imagePaths == old(p.imagePaths)
      invariant forall p :: p in papers ==>
        p.noveltyScore == (if p in papers[..i] && p.metadata.source == Arxiv then Some(ScoreFor(cfg, p.metadata)) else old(p.noveltyScore))
    {
      var paper := papers[i];
      if paper.metadata.source == Arxiv {
        paper.noveltyScore := Some(ScoreFor(cfg, paper.metadata));
      }
      assert papers[..i + 1] == papers[..i] + [paper];
      i := i + 1;
    }
    assert papers[..i] == papers;
    var scored := Scored(papers);
    var sorted := SortByKeyDesc(scored, Totals(scored));
    result := PyTake(sorted, n);
    assert forall p :: p in result ==> p in papers by {
      RankedFromScored(papers, n);
    }
    if Distinct(papers) {
      RankedDistinct(papers, n);
    }
  }

  /** `execute`: with `novelty_enabled` off the papers pass through; otherwise `rank_papers` with `top_n = novelty_top_n`. */
  method Execute(cfg: RankerSettings, papers: seq<Paper>, filter: FilterConfig) returns (result: seq<Paper>)
    modifies set p | p in papers
    ensures !filter.noveltyEnabled ==> result == papers && forall p :: p in papers ==> p.noveltyScore == old(p.noveltyScore)
    ensures forall p :: p in papers ==>
      p.pdfPath == old(p.pdfPath) && p.fullText == old(p.fullText) && p.imagePaths == old(p.imagePaths)
    ensures filter.noveltyEnabled ==>
      if !cfg.enabled || |papers| <= Limit(cfg, Some(filter.noveltyTopN)) then
        result == papers && forall p :: p in papers ==> p.noveltyScore == old(p.noveltyScore)
      else
        && (forall p :: p in papers ==>
              p.noveltyScore == (if p.metadata.source == Arxiv then Some(ScoreFor(cfg, p.metadata)) else old(p.noveltyScore)))
        && result == Ranked(papers, Limit(cfg, Some(filter.noveltyTopN)))
    ensures forall p :: p in result ==> p in papers
    ensures Distinct(papers) ==> Distinct(result)
  {
    if !filter.noveltyEnabled {
      return papers;
    }
    result := RankPapers(cfg, papers, Some(filter.noveltyTopN));
  }

  // ---------------------------------------------------------------------
  // What the ranked list promises
  // ---------------------------------------------------------------------

  /** Every ranked paper is a scored input paper, ranked no more often than it occurs among them. */
  lemma RankedFromScored(papers: seq<Paper>, n: int)
    ensures var r := Ranked(papers, n);
            && (forall p :: p in r ==> p in papers && p.noveltyScore.Some?)
            && multiset(r) <= multiset(Scored(papers))
  {
    var scored := Scored(papers);
    var keys := Totals(scored);
    var r := Ranked(papers, n);
    PrefixOfSortedFromInput(scored, keys, |r|);
    forall p | p in r ensures p in scored {
      assert p in multiset(r);
    }
  }

  /** For a non-negative limit the result has `min(n, number scored)` papers. */
  lemma RankedLength(papers: seq<Paper>, n: int)
    requires n >= 0
    ensures |Ranked(papers, n)| == Min(n, |Scored(papers)|)
  {
  }

  /**
   * The ranked papers, read through the sort: the `a`-th one is the scored
   * paper at input position `entries[a].pos`, totals never increase along
   * the list, and equal totals keep their input order.
   */
  lemma RankedOrder(papers: seq<Paper>, n: int)
    ensures var scored := Scored(papers);
            var entries := SortedEntries(scored, Totals(scored));
            var r := Ranked(papers, n);
            && |r| <= |entries|
            && (forall a :: 0 <= a < |r| ==> r[a] == scored[entries[a].pos])
            && (forall a :: 0 <= a < |r| ==> r[a].noveltyScore.Some? && r[a].noveltyScore.value.totalScore == entries[a].key)
            && (forall a, b :: 0 <= a < b < |r| ==> entries[a].key >= entries[b].key)
            && (forall a, b :: 0 <= a < b < |r| && entries[a].key == entries[b].key ==> entries[a].pos < entries[b].pos)
  {
    var scored := Scored(papers);
    var keys := Totals(scored);
    var r := Ranked(papers, n);
    PrefixOfSorted(scored, keys, |r|);
  }

  /** Nothing dropped outranks anything kept: a scored paper whose position was not taken has a total no larger. */
  lemma RankedIsTop(papers: seq<Paper>, n: nat, j: nat)
    requires j < |Scored(papers)|
    requires forall c :: 0 <= c < n && c < |Scored(papers)| ==>
      SortedEntries(Scored(papers), Totals(Scored(papers)))[c].pos != j
    ensures var scored := Scored(papers);
            var entries := SortedEntries(scored, Totals(scored));
            forall a :: 0 <= a < |Ranked(papers, n)| ==> scored[j].noveltyScore.value.totalScore <= entries[a].key
  {
    var scored := Scored(papers);
    KeptDominateDropped(scored, Totals(scored), n, j);
  }

  /** The scored papers are drawn from the input, each no more often than it occurs there. */
  lemma {:induction false} ScoredFromInput(papers: seq<Paper>)
    ensures multiset(Scored(papers)) <= multiset(papers)
  {
    if |papers| > 0 {
      ScoredFromInput(papers[1..]);
      assert papers == [papers[0]] + papers[1..];
    }
  }

  /** Ranking distinct papers gives distinct papers, so processing them one by one touches each once. */
  lemma RankedDistinct(papers: seq<Paper>, n: int)
    requires Distinct(papers)
    ensures Distinct(Ranked(papers, n))
  {
    RankedFromScored(papers, n);
    ScoredFromInput(papers);
    DistinctCounts(papers);
    var r := Ranked(papers, n);
    assert multiset(r) <= multiset(papers);
    forall x ensures multiset(r)[x] <= 1 {
      assert multiset(r)[x] <= multiset(papers)[x];
    }
    CountsDistinct(r);
  }
}
