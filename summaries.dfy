/** The summarizer's output records (src/paper_review/models/summary.py). */
module Summaries {
  import opened Papers

  datatype PaperSummary = PaperSummary(
    paperId: string,
    metadata: PaperMetadata,
    summary: string,
    imagePaths: seq<string>)

  /** `PaperSummary(paper_id=..., metadata=..., summary=...)`: image paths default to none. */
  function NewPaperSummary(paperId: string, metadata: PaperMetadata, summary: string): (s: PaperSummary)
    ensures s.paperId == paperId && s.metadata == metadata && s.summary == summary
    ensures s.imagePaths == []
  {
    PaperSummary(paperId, metadata, summary, [])
  }

  datatype SummaryReport = SummaryReport(
    date: string,
    totalPapers: int,
    arxivCount: int,
    huggingfaceCount: int,
    summaries: seq<PaperSummary>)

  /** `SummaryReport(date=..., total_papers=..., summaries=...)`: both per-source counts default to 0. */
  function NewSummaryReport(date: string, totalPapers: int, summaries: seq<PaperSummary>): (r: SummaryReport)
    ensures r.date == date && r.totalPapers == totalPapers && r.summaries == summaries
    ensures r.arxivCount == 0 && r.huggingfaceCount == 0
  {
    SummaryReport(date, totalPapers, 0, 0, summaries)
  }
}
