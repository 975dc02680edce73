/**
 * `NoveltyRanker` of utils/novelty_ranker.py: score every paper dictionary
 * into a new dictionary, sort the copies by total score (descending,
 * stable) and keep the first `top_papers_count`. The input dictionaries are
 * values here, so they cannot be changed.
 */
module DictRanker {
  import opened Wrappers
  import opened Text
  import opened Llm
  import opened Scoring
  import opened StableSort
  import opened Records

  /**
   * `novelty_filter.enabled` (default false), `top_papers_count` (default
   * 10), the reply the model gives to the prompt built from a title and an
   * abstract, and `json.loads`.
   */
  datatype DictRankerSettings = DictRankerSettings(
    enabled: bool,
    topPapersCount: int,
    llm: (string, string) -> LlmOutcome,
    decode: Decoder)

  /** The neutral score the loop's handler substitutes when scoring raises. */
  const ScoringFailed: ScoreRecord := ScoreRecord(Neutral, Neutral, Neutral, Neutral, JString("Scoring failed"))

  /**
   * `_score_paper`: the metadata, its title and its summary are read before
   * the method's own `try`, so a missing key raises; once past them every
   * failure is caught and gives the neutral "Error: " score.
   */
  function ScoreOf(cfg: DictRankerSettings, r: PaperRecord): (s: Result<ScoreRecord>)
    ensures s.Failure? <==> r.metadata.None? || r.metadata.value.Title().None? || r.metadata.value.Summary().None?
    ensures s.Success? ==> s.value.totalScore == Mean3(s.value.novelty, s.value.impact, s.value.clarity)
  {
    if r.metadata.None? then Failure(KeyErrorMessage("metadata"))
    else if r.metadata.value.Title().None? then Failure(KeyErrorMessage("title"))
    else if r.metadata.value.Summary().None? then Failure(KeyErrorMessage("summary"))
    else Success(ScoreRecordOf(cfg.llm(r.metadata.value.Title().value, r.metadata.value.Summary().value), cfg.decode))
  }

  /**
   * One pass of the scoring loop: the copy `{**paper_data, 'novelty_score': ...}`
   * with the score, or with the neutral score when scoring raised. The
   * handler's own log line reads `metadata` and `arxiv_id`, so when either is
   * missing the exception escapes.
   */
  function ScoredCopy(cfg: DictRankerSettings, r: PaperRecord): (c: Result<PaperRecord>)
    ensures c.Success? ==> c.value.noveltyScore.Some? && c.value == r.(noveltyScore := c.value.noveltyScore)
    ensures c.Failure? <==> ScoreOf(cfg, r).Failure? && (r.metadata.None? || r.metadata.value.ArxivId().None?)
  {
    match ScoreOf(cfg, r)
    case Success(s) => Success(r.(noveltyScore := Some(s)))
    case Failure(_) =>
      if r.metadata.None? then Failure(KeyErrorMessage("metadata"))
      else if r.metadata.value.ArxivId().None? then Failure(KeyErrorMessage("arxiv_id"))
      else Success(r.(noveltyScore := Some(ScoringFailed)))
  }

  /** One pass of the scoring loop, as a function value. */
  function ScoreStep(cfg: DictRankerSettings): PaperRecord -> Result<PaperRecord> {
    r => ScoredCopy(cfg, r)
  }

  /** The scoring loop over a whole list: the copies in order, or the first exception that escapes. */
  function ScoredAll(cfg: DictRankerSettings, rs: seq<PaperRecord>): Result<seq<PaperRecord>> {
    MapUntilFailure(ScoreStep(cfg), rs)
  }

  /** The sort key `x['novelty_score']['total_score']`; it is only taken of scored copies, which all have a score. */
  function TotalOf(r: PaperRecord): real {
    match r.noveltyScore
    case Some(s) => s.totalScore
    case None => 0.0
  }

  function Totals(rs: seq<PaperRecord>): (keys: seq<real>)
    ensures |keys| == |rs|
    ensures forall i :: 0 <= i < |rs| ==> keys[i] == TotalOf(rs[i])
  {
    seq(|rs|, i requires 0 <= i < |rs| => TotalOf(rs[i]))
  }

  /** The log line of one ranked copy reads its `metadata` and that dictionary's `title`. */
  predicate Loggable(r: PaperRecord) {
    r.metadata.Some? && r.metadata.value.Title().Some?
  }

  /** The exception the log line of a copy raises, if any. */
  function LogError(r: PaperRecord): Option<string> {
    if r.metadata.None? then Some(KeyErrorMessage("metadata"))
    else if r.metadata.value.Title().None? then Some(KeyErrorMessage("title"))
    else None
  }

  /** The log loop over the shown copies: the first exception raised, or None when every line is written. */
  function LogShown(shown: seq<PaperRecord>): (e: Option<string>)
    ensures e.None? <==> forall i :: 0 <= i < |shown| ==> Loggable(shown[i])
  {
    if |shown| == 0 then None
    else if LogError(shown[0]).Some? then LogError(shown[0])
    else LogShown(shown[1..])
  }

  /** Logging a list whose every line is written, then more copies, raises what the later copies raise. */
  lemma {:induction false} LogShownAppend(s: seq<PaperRecord>, t: seq<PaperRecord>)
    requires LogShown(s).None?
    ensures LogShown(s + t) == LogShown(t)
  {
    if |s| > 0 {
      assert LogError(s[0]).None?;
      assert (s + t)[0] == s[0] && (s + t)[1..] == s[1..] + t;
      LogShownAppend(s[1..], t);
    } else {
      assert s + t == t;
    }
  }

  /** The copies `rank_papers` keeps once scoring completed: the first `top_papers_count` of the stable descending sort. */
  function TopCopies(cfg: DictRankerSettings, scored: seq<PaperRecord>): seq<PaperRecord> {
    PyTake(SortByKeyDesc(scored, Totals(scored)), cfg.topPapersCount)
  }

  /**
   * What `rank_papers` returns or raises: past the fast path, the scoring
   * loop's exception, or the log loop's over the first five kept copies, or
   * the kept copies.
   */
  function Ranking(cfg: DictRankerSettings, rs: seq<PaperRecord>): Result<seq<PaperRecord>> {
    if !cfg.enabled || |rs| <= cfg.topPapersCount then Success(rs)
    else
      match ScoredAll(cfg, rs)
      case Failure(e) => Failure(e)
      case Success(scored) =>
        var top := TopCopies(cfg, scored);
        match LogShown(PyTake(top, 5))
        case Some(e) => Failure(e)
        case None => Success(top)
  }

  /**
   * `rank_papers`. Disabled, or with no more records than the count, it
   * returns its input; otherwise it scores every record in order, stopping at
   * the first exception that escapes, sorts and truncates, and logs the
   * first five kept copies, which raises on a copy without a title.
   */
  method RankPapers(cfg: DictRankerSettings, papers: seq<PaperRecord>) returns (result: Result<seq<PaperRecord>>)
    ensures !cfg.enabled || |papers| <= cfg.topPapersCount ==> result == Success(papers)
    ensures result == Ranking(cfg, papers)
  {
    if !cfg.enabled {
      return Success(papers);
    }
    if |papers| <= cfg.topPapersCount {
      return Success(papers);
    }
    var scored: seq<PaperRecord> := [];
    var i := 0;
    while i < |papers|
      invariant 0 <= i <= |papers|
      invariant ScoredAll(cfg, papers[..i]) == Success(scored)
    {
      var copy := ScoredCopy(cfg, papers[i]);
      TakeSnoc(papers, i);
      assert papers[..i + 1][..i] == papers[..i];
      if copy.Failure? {
        FailureSticks(ScoreStep(cfg), papers, i + 1);
        assert papers[..|papers|] == papers;
        return Failure(copy.error);
      }
      scored := scored + [copy.value];
      i := i + 1;
    }
    assert papers[..i] == papers;
    var top := TopCopies(cfg, scored);
    var err := LogTop(PyTake(top, 5));
    if err.Some? {
      return Failure(err.value);
    }
    result := Success(top);
  }

  /** The log loop over the shown copies: the first `KeyError` a log line raises, if any. */
  method LogTop(shown: seq<PaperRecord>) returns (err: Option<string>)
    ensures err == LogShown(shown)
  {
    var k := 0;
    while k < |shown|
      invariant 0 <= k <= |shown|
      invariant LogShown(shown[..k]).None?
    {
      LogShownAppend(shown[..k], shown[k..]);
      assert shown[..k] + shown[k..] == shown;
      err := LogError(shown[k]);
      if err.Some? {
        return;
      }
      assert shown[..k + 1] == shown[..k] + [shown[k]];
      LogShownAppend(shown[..k], [shown[k]]);
      k := k + 1;
    }
    assert shown[..k] == shown;
    err := None;
  }

  /**
   * Past the fast path, once scoring completed, `rank_papers` returns exactly
   * when each of the first five kept copies has a title to log.
   */
  lemma RankingLogs(cfg: DictRankerSettings, rs: seq<PaperRecord>)
    requires cfg.enabled && |rs| > cfg.topPapersCount
    requires ScoredAll(cfg, rs).Success?
    ensures var top := TopCopies(cfg, ScoredAll(cfg, rs).value);
            && (Ranking(cfg, rs).Success? <==> forall a :: 0 <= a < Min(5, |top|) ==> Loggable(top[a]))
            && (Ranking(cfg, rs).Success? ==> Ranking(cfg, rs).value == top)
  {
    var top := TopCopies(cfg, ScoredAll(cfg, rs).value);
    var shown := PyTake(top, 5);
    assert |shown| == Min(5, |top|);
    assert forall a :: 0 <= a < |shown| ==> shown[a] == top[a];
  }

  // ---------------------------------------------------------------------
  // What the ranking promises
  // ---------------------------------------------------------------------

  /** A completed loop holds, position by position, the copy of each input record. */
  lemma ScoredAllCopies(cfg: DictRankerSettings, rs: seq<PaperRecord>)
    requires ScoredAll(cfg, rs).Success?
    ensures var out := ScoredAll(cfg, rs).value;
            && |out| == |rs|
            && forall i :: 0 <= i < |rs| ==> Success(out[i]) == ScoredCopy(cfg, rs[i])
  {
    MapUntilFailureResults(ScoreStep(cfg), rs);
  }

  /** The loop completes exactly when no record lets an exception escape. */
  lemma ScoredAllSucceeds(cfg: DictRankerSettings, rs: seq<PaperRecord>)
    ensures ScoredAll(cfg, rs).Success? <==> forall i :: 0 <= i < |rs| ==> ScoredCopy(cfg, rs[i]).Success?
  {
    MapUntilFailureSucceeds(ScoreStep(cfg), rs);
    assert forall i :: 0 <= i < |rs| ==> ScoreStep(cfg)(rs[i]) == ScoredCopy(cfg, rs[i]);
  }

  /** A record with every key read never makes the loop raise: it is copied with its model score. */
  lemma CompleteRecordScored(cfg: DictRankerSettings, r: PaperRecord)
    requires Complete(r)
    ensures ScoredCopy(cfg, r) == Success(r.(noveltyScore := Some(ScoreRecordOf(
      cfg.llm(r.metadata.value.Title().value, r.metadata.value.Summary().value), cfg.decode))))
  {
  }

  /** A record whose id is readable but whose title or summary is not gets the "Scoring failed" sentinel. */
  lemma MissingTextGivesSentinel(cfg: DictRankerSettings, r: PaperRecord)
    requires r.metadata.Some? && r.metadata.value.ArxivId().Some?
    requires r.metadata.value.Title().None? || r.metadata.value.Summary().None?
    ensures ScoredCopy(cfg, r) == Success(r.(noveltyScore := Some(ScoringFailed)))
    ensures ScoringFailed.totalScore == Mean3(ScoringFailed.novelty, ScoringFailed.impact, ScoringFailed.clarity)
  {
  }

  /** Past the fast path a successful ranking has exactly `top_papers_count` records, for a non-negative count. */
  lemma RankingLength(cfg: DictRankerSettings, rs: seq<PaperRecord>)
    requires cfg.enabled && cfg.topPapersCount >= 0 && |rs| > cfg.topPapersCount
    requires Ranking(cfg, rs).Success?
    ensures |Ranking(cfg, rs).value| == cfg.topPapersCount
  {
    ScoredAllCopies(cfg, rs);
  }

  /**
   * Past the fast path each ranked record is the scored copy of the input
   * record at position `entries[a].pos`, where `entries` is the stable
   * descending sort of the copies: totals never increase along the result
   * and equal totals keep their input order.
   */
  lemma RankingOrder(cfg: DictRankerSettings, rs: seq<PaperRecord>)
    requires cfg.enabled && |rs| > cfg.topPapersCount
    requires Ranking(cfg, rs).Success?
    ensures var scored := ScoredAll(cfg, rs).value;
            var entries := SortedEntries(scored, Totals(scored));
            var out := Ranking(cfg, rs).value;
            && |out| <= |entries|
            && (forall a :: 0 <= a < |out| ==> entries[a].pos < |rs| && Success(out[a]) == ScoredCopy(cfg, rs[entries[a].pos]))
            && (forall a :: 0 <= a < |out| ==> out[a].noveltyScore.Some? && out[a].noveltyScore.value.totalScore == entries[a].key)
            && (forall a, b :: 0 <= a < b < |out| ==> entries[a].key >= entries[b].key)
            && (forall a, b :: 0 <= a < b < |out| && entries[a].key == entries[b].key ==> entries[a].pos < entries[b].pos)
  {
    ScoredAllCopies(cfg, rs);
    var scored := ScoredAll(cfg, rs).value;
    var keys := Totals(scored);
    var entries := SortedEntries(scored, keys);
    var out := TopCopies(cfg, scored);
    assert out == Ranking(cfg, rs).value;
    PrefixOfSorted(scored, keys, |out|);
    forall a | 0 <= a < |out|
      ensures entries[a].pos < |rs| && Success(out[a]) == ScoredCopy(cfg, rs[entries[a].pos])
      ensures out[a].noveltyScore.Some? && out[a].noveltyScore.value.totalScore == entries[a].key
    {
      var j := entries[a].pos;
      assert out[a] == scored[j];
      assert Success(scored[j]) == ScoredCopy(cfg, rs[j]);
    }
  }
}
