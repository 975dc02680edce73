/**
 * `SummarizerAgent` of agents/summarizer.py: the dictionary variant. The
 * metadata and its `arxiv_id` are read before the `try`, so a record missing
 * either makes the agent raise; every later failure, a missing title,
 * authors or summary included, becomes an error summary.
 */
module DictSummarizer {
  import opened Wrappers
  import opened Text
  import opened Llm
  import opened Records
  import opened Summarizer
  import opened LegacyArxivClient
  import opened Papers

  /** The summary dictionary: `paper_id`, `metadata`, `summary` and `image_paths`. */
  datatype SummaryDict = SummaryDict(paperId: string, metadata: MetaDict, summary: string, imagePaths: seq<string>)

  /** `summary.language` (default "ko") and the model's reply to each prompt. */
  datatype DictSummarizerSettings = DictSummarizerSettings(language: string, llm: Prompt -> LlmOutcome)

  /** `create_summary_prompt`: the title, the authors and the summary are read in that order, and a missing one raises. */
  function CreateDictPrompt(language: string, md: MetaDict): (p: Result<Prompt>)
    ensures p.Success? <==> md.Title().Some? && md.Authors().Some? && md.Summary().Some?
    ensures p.Success? ==> && (p.value.template == Korean <==> language == "ko")
                           && p.value.title == md.Title().value
                           && p.value.abstractText == md.Summary().value
                           && p.value.authors == AuthorLine(md.Authors().value)
  {
    if md.Title().None? then Failure(KeyErrorMessage("title"))
    else if md.Authors().None? then Failure(KeyErrorMessage("authors"))
    else if md.Summary().None? then Failure(KeyErrorMessage("summary"))
    else Success(Prompt(TemplateFor(language), md.Title().value, AuthorLine(md.Authors().value), md.Summary().value))
  }

  /** The text part of the summary: the model's reply, or the error of the prompt or of the call. */
  function SummaryText(cfg: DictSummarizerSettings, md: MetaDict): (text: string)
  {
    match CreateDictPrompt(cfg.language, md)
    case Failure(e) => ErrorPrefix + e
    case Success(p) =>
      match cfg.llm(p)
      case Reply(t) => t
      case CallFailed(e) => ErrorPrefix + e
  }

  /**
   * `summarize_paper`: raises when the record lacks `metadata` or its
   * `arxiv_id`; otherwise the summary dictionary keyed by the arXiv id, with
   * the metadata and the record's image paths (none when the key is absent).
   */
  function SummarizeRecord(cfg: DictSummarizerSettings, r: PaperRecord): (s: Result<SummaryDict>)
    ensures s.Failure? <==> r.metadata.None? || r.metadata.value.ArxivId().None?
    ensures s.Success? ==> && s.value.paperId == r.metadata.value.ArxivId().value
                           && s.value.metadata == r.metadata.value
                           && s.value.imagePaths == (if r.imagePaths.Some? then r.imagePaths.value else [])
  {
    if r.metadata.None? then Failure(KeyErrorMessage("metadata"))
    else if r.metadata.value.ArxivId().None? then Failure(KeyErrorMessage("arxiv_id"))
    else
      var md := r.metadata.value;
      Success(SummaryDict(md.ArxivId().value, md, SummaryText(cfg, md), r.imagePaths.GetOr([])))
  }

  /**
   * `summarize_papers`: one summary per record, in order, unless a record
   * makes `summarize_paper` raise; then the first such exception escapes.
   */
  method SummarizePapers(cfg: DictSummarizerSettings, records: seq<PaperRecord>) returns (out: Result<seq<SummaryDict>>)
    ensures out.Success? <==> forall i :: 0 <= i < |records| ==> SummarizeRecord(cfg, records[i]).Success?
    ensures out.Success? ==> |out.value| == |records|
    ensures out.Success? ==> forall i :: 0 <= i < |records| ==> Success(out.value[i]) == SummarizeRecord(cfg, records[i])
    ensures out.Failure? ==> exists i :: && 0 <= i < |records|
                                         && SummarizeRecord(cfg, records[i]) == Failure(out.error)
                                         && forall j :: 0 <= j < i ==> SummarizeRecord(cfg, records[j]).Success?
  {
    var summaries: seq<SummaryDict> := [];
    for i := 0 to |records|
      invariant |summaries| == i
      invariant forall k :: 0 <= k < i ==> Success(summaries[k]) == SummarizeRecord(cfg, records[k])
    {
      var s := SummarizeRecord(cfg, records[i]);
      if s.Failure? {
        return Failure(s.error);
      }
      summaries := summaries + [s.value];
    }
    out := Success(summaries);
  }

  /** A record with every key read is summarized without raising: the reply, or the marked error of a failed call. */
  lemma CompleteRecordSummarized(cfg: DictSummarizerSettings, r: PaperRecord)
    requires Complete(r)
    ensures var s := SummarizeRecord(cfg, r);
            var md := r.metadata.value;
            var p := Prompt(TemplateFor(cfg.language), md.Title().value, AuthorLine(md.Authors().value), md.Summary().value);
            && s.Success?
            && (cfg.llm(p).Reply? ==> s.value.summary == cfg.llm(p).text)
            && (cfg.llm(p).CallFailed? ==> s.value.summary == ErrorPrefix + cfg.llm(p).message)
  {
  }

  /** A record missing its title, authors or summary still gets a summary: the marked `KeyError`. */
  lemma MissingTextGivesErrorSummary(cfg: DictSummarizerSettings, r: PaperRecord)
    requires r.metadata.Some? && r.metadata.value.ArxivId().Some?
    requires r.metadata.value.Title().None? || r.metadata.value.Authors().None? || r.metadata.value.Summary().None?
    ensures var s := SummarizeRecord(cfg, r);
            && s.Success?
            && |s.value.summary| > |ErrorPrefix| && s.value.summary[..|ErrorPrefix|] == ErrorPrefix
  {
  }

  /**
   * The two summarizers write the same prompt for the same title, authors
   * and abstract: the dictionary prompt of `extract_metadata`'s result equals
   * the prompt of any `PaperMetadata` with those three fields.
   */
  lemma PromptsAgree(language: string, e: ExtractedMetadata, m: PaperMetadata)
    requires m.title == e.title && m.authors == e.authors && m.summary == e.summary
    ensures CreateDictPrompt(language, Extracted(e)) == Success(CreatePrompt(language, m))
  {
  }
}
