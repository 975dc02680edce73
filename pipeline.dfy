/**
 * `PaperReviewPipeline.run` of src/paper_review/core/pipeline.py: fetch the
 * selected sources (arXiv first), stop with an empty report when nothing
 * came back, rank the arXiv papers only, put them before every Hugging Face
 * paper, process the ranked arXiv papers' PDFs in place when asked, and
 * summarize and count the selection.
 *
 * The asynchronous `run` is sequential; the report date is a parameter.
 */
module Pipeline {
  import opened Wrappers
  import opened Text
  import opened Papers
  import opened Summaries
  import opened Filters
  import opened ArxivApi
  import opened ArxivFetcher
  import opened HfFetcher
  import opened Ranker
  import opened Summarizer

  /** The stages' surroundings: the arXiv fetcher's, the daily-papers API, the ranker's and the summarizer's. */
  datatype PipelineEnv = PipelineEnv(
    arxiv: FetcherEnv,
    hf: DailyPapersApi,
    ranker: RankerSettings,
    summarizer: SummarizerSettings)

  /** `_create_empty_report`: no papers, no summaries, both counts zero. */
  function EmptyReport(date: string): (r: SummaryReport)
    ensures r.date == date && r.summaries == []
    ensures r.totalPapers == 0 && r.arxivCount == 0 && r.huggingfaceCount == 0
  {
    SummaryReport(date, 0, 0, 0, [])
  }

  /** `p.metadata.source == src`. */
  function IsFrom(src: Source): Paper -> bool {
    (p: Paper) => p.metadata.source == src
  }

  /** `s.metadata.source == src`. */
  function SummaryFrom(src: Source): PaperSummary -> bool {
    (s: PaperSummary) => s.metadata.source == src
  }

  /** `len([s for s in summaries if s.metadata.source == src])`. */
  function CountFrom(summaries: seq<PaperSummary>, src: Source): nat {
    |Filter(summaries, SummaryFrom(src))|
  }

  /** Every summary is counted under exactly one of the two sources. */
  lemma {:induction false} CountsAddUp(summaries: seq<PaperSummary>)
    ensures CountFrom(summaries, Arxiv) + CountFrom(summaries, HuggingFace) == |summaries|
  {
    if |summaries| > 0 {
      CountsAddUp(summaries[1..]);
    }
  }

  /** The report of stage 5: the total is the number of summaries and splits into the two source counts. */
  function Report(date: string, summaries: seq<PaperSummary>): (r: SummaryReport)
    ensures r.summaries == summaries && r.totalPapers == |summaries|
    ensures r.arxivCount + r.huggingfaceCount == r.totalPapers
  {
    CountsAddUp(summaries);
    SummaryReport(date, |summaries|, CountFrom(summaries, Arxiv), CountFrom(summaries, HuggingFace), summaries)
  }

  /** Partitioning arXiv papers followed by Hugging Face papers by source gives back the two lists. */
  lemma PartitionBySource(arxiv: seq<Paper>, hf: seq<Paper>)
    requires forall i :: 0 <= i < |arxiv| ==> arxiv[i].metadata.source == Arxiv
    requires forall i :: 0 <= i < |hf| ==> hf[i].metadata.source == HuggingFace
    ensures Filter(arxiv + hf, IsFrom(Arxiv)) == arxiv
    ensures Filter(arxiv + hf, IsFrom(HuggingFace)) == hf
  {
    FilterAppend(arxiv, hf, IsFrom(Arxiv));
    FilterAppend(arxiv, hf, IsFrom(HuggingFace));
    FilterAll(arxiv, IsFrom(Arxiv));
    FilterNone(hf, IsFrom(Arxiv));
    FilterNone(arxiv, IsFrom(HuggingFace));
    FilterAll(hf, IsFrom(HuggingFace));
  }

  /**
   * What the report says about a selection: the total is the number of
   * summaries and splits into the two source counts, and the summaries are
   * those of the ranked arXiv papers, as they now stand, followed by one for
   * each Hugging Face paper, without images.
   */
  ghost predicate Summarizes(s: SummarizerSettings, report: SummaryReport, ranked: seq<Paper>, hf: seq<Paper>)
    reads set p | p in ranked
  {
    && report.totalPapers == |report.summaries| == report.arxivCount + report.huggingfaceCount
    && |report.summaries| == |ranked| + |hf|
    && (forall i :: 0 <= i < |ranked| ==>
          report.summaries[i] == SummaryFor(s, ranked[i].metadata, ranked[i].imagePaths))
    && (forall i :: 0 <= i < |hf| ==> report.summaries[|ranked| + i] == SummaryFor(s, hf[i].metadata, []))
  }

  /**
   * Stage 1: `fetch_metadata_only` when arXiv is selected, then
   * `fetch_daily_papers` when Hugging Face is; both give new, unprocessed
   * papers, and no paper is in both lists.
   */
  method FetchSources(env: PipelineEnv, f: FilterConfig, now: int) returns (arxiv: seq<Paper>, hf: seq<Paper>)
    ensures Metadatas(arxiv) == MetadataOnly(env.arxiv, f, now)
    ensures Metadatas(hf) == DailyMetadata(env.hf, f, now)
    ensures forall p :: p in arxiv ==> fresh(p)
    ensures forall p :: p in hf ==> fresh(p)
    ensures Distinct(arxiv) && Distinct(hf)
    ensures forall i, j :: 0 <= i < |arxiv| && 0 <= j < |hf| ==> arxiv[i] != hf[j]
    ensures forall i :: 0 <= i < |arxiv| ==> Unprocessed(arxiv[i])
    ensures forall j :: 0 <= j < |hf| ==> Unprocessed(hf[j])
    ensures forall i :: 0 <= i < |arxiv| ==> arxiv[i].metadata.source == Arxiv
    ensures forall j :: 0 <= j < |hf| ==> hf[j].metadata.source == HuggingFace
  {
    arxiv, hf := [], [];
    if Arxiv in f.sources {
      arxiv := FetchMetadataOnly(env.arxiv, f, now);
      forall i | 0 <= i < |arxiv| ensures Unprocessed(arxiv[i]) {
        assert Contents(arxiv)[i] == Blank(|arxiv|)[i];
      }
    }
    if HuggingFace in f.sources {
      hf := FetchDailyPapers(env.hf, f, now);
    }
  }

  /**
   * Each ranked paper holds what `process_paper` gives it on the files the
   * papers before it left, starting from `files`: the PDF path, its text and
   * its images once the PDF is there, and still nothing otherwise; its score
   * is the one ranking gave it.
   */
  ghost predicate ProcessedFrom(env: FetcherEnv, files: set<string>, ranked: seq<Paper>)
    reads set p | p in ranked
  {
    forall i :: 0 <= i < |ranked| ==>
      ContentOf(ranked[i]) == Step(env, FilesAfter(env, files, Metadatas(ranked)[..i]), ranked[i].metadata,
                                   Content(None, None, [], ranked[i].noveltyScore))
  }

  /** Papers that held only a score before processing are, after it, as `ProcessedFrom` says. */
  lemma ProcessedFromBlank(env: FetcherEnv, files: set<string>, ranked: seq<Paper>, before: seq<Content>)
    requires |before| == |ranked|
    requires forall i :: 0 <= i < |ranked| ==> before[i] == Content(None, None, [], before[i].noveltyScore)
    requires Contents(ranked) == ProcessedContents(env, files, Metadatas(ranked), before)
    ensures ProcessedFrom(env, files, ranked)
  {
    forall i | 0 <= i < |ranked|
      ensures ContentOf(ranked[i]) == Step(env, FilesAfter(env, files, Metadatas(ranked)[..i]), ranked[i].metadata,
                                           Content(None, None, [], ranked[i].noveltyScore))
    {
      ProcessedAt(env, files, Metadatas(ranked), before, i);
      assert Contents(ranked)[i] == ContentOf(ranked[i]);
    }
  }

  /**
   * After processing, the summary of the i-th ranked paper carries exactly
   * the images extracted from its PDF when the PDF was there, and none
   * otherwise; the Hugging Face summaries carry none.
   */
  lemma ReportImages(env: PipelineEnv, files: set<string>, report: SummaryReport, ranked: seq<Paper>, hf: seq<Paper>)
    requires Summarizes(env.summarizer, report, ranked, hf)
    requires ProcessedFrom(env.arxiv, files, ranked)
    ensures forall i :: 0 <= i < |ranked| ==>
      report.summaries[i].imagePaths
        == Step(env.arxiv, FilesAfter(env.arxiv, files, Metadatas(ranked)[..i]), ranked[i].metadata, Content(None, None, [], None)).imagePaths
    ensures forall k :: |ranked| <= k < |report.summaries| ==> report.summaries[k].imagePaths == []
  {
    forall i | 0 <= i < |ranked|
      ensures report.summaries[i].imagePaths
        == Step(env.arxiv, FilesAfter(env.arxiv, files, Metadatas(ranked)[..i]), ranked[i].metadata, Content(None, None, [], None)).imagePaths
    {
      var files' := FilesAfter(env.arxiv, files, Metadatas(ranked)[..i]);
      assert report.summaries[i] == SummaryFor(env.summarizer, ranked[i].metadata, ranked[i].imagePaths);
      assert ContentOf(ranked[i]) == Step(env.arxiv, files', ranked[i].metadata, Content(None, None, [], ranked[i].noveltyScore));
    }
    forall k | |ranked| <= k < |report.summaries| ensures report.summaries[k].imagePaths == [] {
      assert report.summaries[|ranked| + (k - |ranked|)] == SummaryFor(env.summarizer, hf[k - |ranked|].metadata, []);
    }
  }

  /**
   * What stage 2 makes of the arXiv papers. Without novelty, with the ranker
   * disabled, or with no more papers than `novelty_top_n` (or the configured
   * count when that is 0), they pass through; otherwise every one is scored
   * by the model and `Ranked` keeps the best `n` by total score, ties in
   * fetch order.
   */
  ghost predicate RankedBy(env: PipelineEnv, f: FilterConfig, arxiv: seq<Paper>, ranked: seq<Paper>)
    reads set p | p in arxiv
  {
    if !f.noveltyEnabled || !env.ranker.enabled || |arxiv| <= Limit(env.ranker, Some(f.noveltyTopN)) then ranked == arxiv
    else
      && (forall p :: p in arxiv ==> p.noveltyScore == Some(ScoreFor(env.ranker, p.metadata)))
      && ranked == Ranked(arxiv, Limit(env.ranker, Some(f.noveltyTopN)))
  }

  /**
   * Stage 2: `novelty_ranker.execute` when there are arXiv papers and
   * `novelty_enabled` is set, otherwise the arXiv papers unchanged. Ranking
   * only sets scores, and its result is drawn from the arXiv papers without
   * repeats.
   */
  method RankArxiv(env: PipelineEnv, f: FilterConfig, arxiv: seq<Paper>) returns (ranked: seq<Paper>)
    requires Distinct(arxiv)
    requires forall i :: 0 <= i < |arxiv| ==> arxiv[i].metadata.source == Arxiv
    modifies set p | p in arxiv
    ensures Distinct(ranked)
    ensures forall i :: 0 <= i < |ranked| ==> ranked[i].metadata.source == Arxiv
    ensures forall p :: p in ranked ==> p in arxiv
    ensures !f.noveltyEnabled ==> ranked == arxiv
    ensures RankedBy(env, f, arxiv, ranked)
    ensures forall p :: p in arxiv ==>
      p.pdfPath == old(p.pdfPath) && p.fullText == old(p.fullText) && p.imagePaths == old(p.imagePaths)
  {
    ranked := arxiv;
    if |arxiv| > 0 && f.noveltyEnabled {
      forall p | p in arxiv ensures p.metadata.source == Arxiv {
        var i :| 0 <= i < |arxiv| && arxiv[i] == p;
      }
      ranked := Ranker.Execute(env.ranker, arxiv, f);
    } else if |arxiv| == 0 {
      assert Scored(arxiv) == [];
    }
  }

  /**
   * Stage 3: when `process_pdfs` is set and there are ranked papers,
   * `process_paper` on each of them in turn; otherwise nothing. Scores are
   * not touched, so the ranking of the arXiv papers `arxiv` stands.
   */
  method ProcessRanked(env: PipelineEnv, disk: Disk, ranked: seq<Paper>, processPdfs: bool,
                       ghost f: FilterConfig, ghost arxiv: seq<Paper>)
    requires Distinct(ranked)
    requires RankedBy(env, f, arxiv, ranked)
    modifies disk, set p | p in ranked
    ensures !processPdfs ==> disk.files == old(disk.files)
    ensures !processPdfs ==> unchanged(set p | p in ranked)
    ensures processPdfs ==> disk.files == FilesAfter(env.arxiv, old(disk.files), Metadatas(ranked))
    ensures processPdfs ==> Contents(ranked) == ProcessedContents(env.arxiv, old(disk.files), Metadatas(ranked), old(Contents(ranked)))
    ensures forall i :: 0 <= i < |ranked| ==> ranked[i].noveltyScore == old(ranked[i].noveltyScore)
    ensures RankedBy(env, f, arxiv, ranked)
  {
    if processPdfs && |ranked| > 0 {
      ghost var before := Contents(ranked);
      var _ := ProcessAll(env.arxiv, disk, ranked);
      forall i | 0 <= i < |ranked| ensures ranked[i].noveltyScore == before[i].noveltyScore {
        ProcessedAt(env.arxiv, old(disk.files), Metadatas(ranked), before, i);
        assert Contents(ranked)[i] == ContentOf(ranked[i]);
      }
    }
    forall p | p in arxiv ensures p.noveltyScore == old(p.noveltyScore) {
      if p in ranked {
        var i :| 0 <= i < |ranked| && ranked[i] == p;
      }
    }
    ScoredReadsScores(arxiv);
  }

  /**
   * Stages 4 and 5: summarize the ranked arXiv papers followed by the
   * Hugging Face papers, and count the summaries.
   */
  method SummarizeSelection(env: PipelineEnv, today: string, ranked: seq<Paper>, hf: seq<Paper>)
    returns (report: SummaryReport)
    requires forall j :: 0 <= j < |hf| ==> hf[j].imagePaths == []
    ensures report.date == today
    ensures Summarizes(env.summarizer, report, ranked, hf)
  {
    var selected := ranked + hf;
    var summaries := SummarizePapers(env.summarizer, selected);
    forall i | 0 <= i < |hf|
      ensures summaries[|ranked| + i] == SummaryFor(env.summarizer, hf[i].metadata, [])
    {
      assert selected[|ranked| + i] == hf[i];
    }
    report := Report(today, summaries);
  }

  /**
   * Stage 2: partition the merged list by source, keeping the merge order,
   * and rank the arXiv part only; the Hugging Face part passes through.
   */
  method PartitionAndRank(env: PipelineEnv, f: FilterConfig, arxiv: seq<Paper>, hf: seq<Paper>)
    returns (ranked: seq<Paper>, hfPapers: seq<Paper>)
    requires Distinct(arxiv)
    requires forall i, j :: 0 <= i < |arxiv| && 0 <= j < |hf| ==> arxiv[i] != hf[j]
    requires forall i :: 0 <= i < |arxiv| ==> Unprocessed(arxiv[i]) && arxiv[i].metadata.source == Arxiv
    requires forall j :: 0 <= j < |hf| ==> Unprocessed(hf[j]) && hf[j].metadata.source == HuggingFace
    modifies set p | p in arxiv
    ensures hfPapers == hf
    ensures Distinct(ranked)
    ensures !f.noveltyEnabled ==> ranked == arxiv
    ensures RankedBy(env, f, arxiv, ranked)
    ensures forall i :: 0 <= i < |ranked| ==> ranked[i] in arxiv
    ensures forall j :: 0 <= j < |hf| ==> hf[j] !in ranked && hf[j].imagePaths == []
    ensures forall i :: 0 <= i < |ranked| ==>
      ranked[i].pdfPath.None? && ranked[i].fullText.None? && ranked[i].imagePaths == []
  {
    var allPapers := arxiv + hf;
    PartitionBySource(arxiv, hf);
    var arxivPapers := Filter(allPapers, IsFrom(Arxiv));
    hfPapers := Filter(allPapers, IsFrom(HuggingFace));
    assert arxivPapers == arxiv && hfPapers == hf;
    assert forall j :: 0 <= j < |hf| ==> hf[j] !in arxiv;
    ranked := RankArxiv(env, f, arxivPapers);
    forall i | 0 <= i < |ranked|
      ensures ranked[i].pdfPath.None? && ranked[i].fullText.None? && ranked[i].imagePaths == []
    {
      var p := ranked[i];
      assert p in arxiv;
      var k :| 0 <= k < |arxiv| && arxiv[k] == p;
      assert old(Unprocessed(p));
    }
    forall j | 0 <= j < |hf| ensures hf[j] !in ranked && hf[j].imagePaths == [] {
      assert hf[j] !in arxiv;
      assert old(Unprocessed(hf[j]));
    }
  }

  /**
   * Stages 2 to 5 on the fetched papers: rank the arXiv papers, process the
   * ranked ones in place when asked, and summarize and count the ranked arXiv
   * papers followed by the Hugging Face papers.
   */
  method RunOnFetched(env: PipelineEnv, disk: Disk, f: FilterConfig, today: string, processPdfs: bool,
                      arxiv: seq<Paper>, hf: seq<Paper>)
    returns (report: SummaryReport, ghost ranked: seq<Paper>)
    requires Distinct(arxiv)
    requires forall i, j :: 0 <= i < |arxiv| && 0 <= j < |hf| ==> arxiv[i] != hf[j]
    requires forall i :: 0 <= i < |arxiv| ==> Unprocessed(arxiv[i]) && arxiv[i].metadata.source == Arxiv
    requires forall j :: 0 <= j < |hf| ==> Unprocessed(hf[j]) && hf[j].metadata.source == HuggingFace
    modifies disk, set p | p in arxiv
    ensures report.date == today
    ensures !f.noveltyEnabled ==> ranked == arxiv && Metadatas(ranked) == Metadatas(arxiv)
    ensures forall i :: 0 <= i < |ranked| ==> ranked[i] in arxiv && ranked[i].metadata.source == Arxiv
    ensures Distinct(ranked)
    ensures RankedBy(env, f, arxiv, ranked)
    ensures Summarizes(env.summarizer, report, ranked, hf)
    ensures !processPdfs ==> disk.files == old(disk.files)
    ensures !processPdfs ==> forall i :: 0 <= i < |ranked| ==>
      ranked[i].pdfPath.None? && ranked[i].fullText.None? && ranked[i].imagePaths == []
    ensures processPdfs ==> disk.files == FilesAfter(env.arxiv, old(disk.files), Metadatas(ranked))
    ensures processPdfs ==> ProcessedFrom(env.arxiv, old(disk.files), ranked)
  {
    var rankedArxiv, hfPapers := PartitionAndRank(env, f, arxiv, hf);
    ranked := rankedArxiv;
    ghost var before := Contents(rankedArxiv);

    // Stage 3: process the ranked arXiv papers in place.
    ProcessRanked(env, disk, rankedArxiv, processPdfs, f, arxiv);
    if processPdfs {
      ProcessedFromBlank(env.arxiv, old(disk.files), ranked, before);
    } else {
      forall i | 0 <= i < |ranked| ensures ranked[i].pdfPath.None? && ranked[i].fullText.None? && ranked[i].imagePaths == [] {
        assert before[i] == ContentOf(ranked[i]);
      }
    }

    // Stages 4 and 5: summarize the selection, ranked arXiv papers first, and count.
    report := SummarizeSelection(env, today, rankedArxiv, hfPapers);
    assert forall i :: 0 <= i < |ranked| ==> ranked[i] in arxiv;
  }

  /**
   * `run`. `ranked` and `hfPapers` name the two parts of the selection: the
   * summaries are those of the ranked arXiv papers, as processed, followed by
   * one for each Hugging Face paper, untouched.
   */
  method Run(env: PipelineEnv, disk: Disk, f: FilterConfig, now: int, today: string, processPdfs: bool)
    returns (report: SummaryReport, ghost arxivPapers: seq<Paper>, ghost ranked: seq<Paper>, ghost hfPapers: seq<Paper>)
    modifies disk
    ensures MetadataOnly(env.arxiv, f, now) + DailyMetadata(env.hf, f, now) == [] ==>
      report == EmptyReport(today) && disk.files == old(disk.files)
    ensures Metadatas(arxivPapers) == MetadataOnly(env.arxiv, f, now)
    ensures Metadatas(hfPapers) == DailyMetadata(env.hf, f, now)
    ensures !f.noveltyEnabled ==> Metadatas(ranked) == MetadataOnly(env.arxiv, f, now)
    ensures RankedBy(env, f, arxivPapers, ranked)
    ensures forall i :: 0 <= i < |ranked| ==> ranked[i].metadata.source == Arxiv
    ensures forall i :: 0 <= i < |ranked| ==> ranked[i].metadata in MetadataOnly(env.arxiv, f, now)
    ensures Distinct(ranked)
    ensures Summarizes(env.summarizer, report, ranked, hfPapers)
    ensures !processPdfs ==> disk.files == old(disk.files)
    ensures !processPdfs ==> forall i :: 0 <= i < |ranked| ==>
      ranked[i].pdfPath.None? && ranked[i].fullText.None? && ranked[i].imagePaths == []
    ensures processPdfs ==> disk.files == FilesAfter(env.arxiv, old(disk.files), Metadatas(ranked))
    ensures processPdfs ==> ProcessedFrom(env.arxiv, old(disk.files), ranked)
  {
    // Stage 1: fetch, arXiv first.
    var fetchedArxiv, fetchedHf := FetchSources(env, f, now);
    if |fetchedArxiv| + |fetchedHf| == 0 {
      assert MetadataOnly(env.arxiv, f, now) + DailyMetadata(env.hf, f, now) == [];
      assert Scored(fetchedArxiv) == [];
      return EmptyReport(today), fetchedArxiv, [], [];
    }
    assert |MetadataOnly(env.arxiv, f, now)| + |DailyMetadata(env.hf, f, now)| > 0;
    arxivPapers, hfPapers := fetchedArxiv, fetchedHf;
    report, ranked := RunOnFetched(env, disk, f, today, processPdfs, fetchedArxiv, fetchedHf);
    forall i | 0 <= i < |ranked| ensures ranked[i].metadata in MetadataOnly(env.arxiv, f, now) {
      var k :| 0 <= k < |fetchedArxiv| && fetchedArxiv[k] == ranked[i];
      assert Metadatas(fetchedArxiv)[k] == ranked[i].metadata;
    }
  }
}
