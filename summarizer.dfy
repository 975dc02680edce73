/**
 * `SummarizerAgent` of src/paper_review/agents/summarizer.py: one summary
 * per paper, in order, built from the prompt the agent writes and the reply
 * of the model; a failed call still yields a summary, carrying the error.
 */
module Summarizer {
  import opened Wrappers
  import opened Text
  import opened Llm
  import opened Papers
  import opened Summaries

  /** The two prompt templates. */
  datatype Template = Korean | English

  /** "ko" selects the Korean template; every other language the English one. */
  function TemplateFor(language: string): (t: Template)
    ensures t == Korean <==> language == "ko"
  {
    if language == "ko" then Korean else English
  }

  /** The author line of the prompt: the first three authors joined by ", ". */
  function AuthorLine(authors: seq<string>): string {
    Join(PyTake(authors, 3), ", ")
  }

  /** Authors past the third never reach the prompt; three or fewer are all listed. */
  lemma AuthorLineFirstThree(authors: seq<string>)
    ensures |authors| > 3 ==> AuthorLine(authors) == AuthorLine(authors[..3]) == Join(authors[..3], ", ")
    ensures |authors| <= 3 ==> AuthorLine(authors) == Join(authors, ", ")
  {
    if |authors| <= 3 {
      assert authors[..|authors|] == authors;
    }
  }

  /**
   * A prompt, as the template with its three slots filled: the title, the
   * author line and the abstract. The template wording is not modelled.
   */
  datatype Prompt = Prompt(template: Template, title: string, authors: string, abstractText: string)

  /** `create_summary_prompt`. */
  function CreatePrompt(language: string, m: PaperMetadata): (p: Prompt)
    ensures p.template == Korean <==> language == "ko"
    ensures p.title == m.title && p.abstractText == m.summary
    ensures |m.authors| <= 3 ==> p.authors == Join(m.authors, ", ")
    ensures |m.authors| > 3 ==> p.authors == Join(m.authors[..3], ", ")
  {
    AuthorLineFirstThree(m.authors);
    Prompt(TemplateFor(language), m.title, AuthorLine(m.authors), m.summary)
  }

  /** `summary.language` (default "ko") and the model's reply to each prompt. */
  datatype SummarizerSettings = SummarizerSettings(language: string, llm: Prompt -> LlmOutcome)

  const ErrorPrefix: string := "Error creating summary: "

  /** `arxiv_id or title[:20]`: a non-empty arXiv id, else the first 20 characters of the title. */
  function PaperIdOf(m: PaperMetadata): (id: string)
    ensures m.arxivId.Some? && m.arxivId.value != "" ==> id == m.arxivId.value
    ensures m.arxivId.None? || m.arxivId.value == "" ==> |id| == Min(20, |m.title|) && id == m.title[..|id|]
  {
    if m.arxivId.Some? && m.arxivId.value != "" then m.arxivId.value else PyTake(m.title, 20)
  }

  /**
   * `summarize_paper` of a paper with this metadata and these image paths:
   * the reply is the summary text, and a failed call gives
   * "Error creating summary: " and its message; nothing raises.
   */
  function SummaryFor(cfg: SummarizerSettings, m: PaperMetadata, imagePaths: seq<string>): (s: PaperSummary)
    ensures s.paperId == PaperIdOf(m) && s.metadata == m && s.imagePaths == imagePaths
  {
    match cfg.llm(CreatePrompt(cfg.language, m))
    case Reply(text) => PaperSummary(PaperIdOf(m), m, text, imagePaths)
    case CallFailed(e) => PaperSummary(PaperIdOf(m), m, ErrorPrefix + e, imagePaths)
  }

  /** The summary text is the model's reply, or the marked error when the call failed. */
  lemma SummaryText(cfg: SummarizerSettings, m: PaperMetadata, imagePaths: seq<string>)
    ensures var s := SummaryFor(cfg, m, imagePaths);
            match cfg.llm(CreatePrompt(cfg.language, m))
            case Reply(text) => s.summary == text
            case CallFailed(e) => |s.summary| >= |ErrorPrefix| && s.summary[..|ErrorPrefix|] == ErrorPrefix
                                  && s.summary[|ErrorPrefix|..] == e
  {
  }

  /** `summarize_papers`: exactly one summary per paper, in input order. */
  method SummarizePapers(cfg: SummarizerSettings, papers: seq<Paper>) returns (summaries: seq<PaperSummary>)
    ensures |summaries| == |papers|
    ensures forall i :: 0 <= i < |papers| ==> summaries[i] == SummaryFor(cfg, papers[i].metadata, papers[i].imagePaths)
  {
    summaries := [];
    for i := 0 to |papers|
      invariant |summaries| == i
      invariant forall k :: 0 <= k < i ==> summaries[k] == SummaryFor(cfg, papers[k].metadata, papers[k].imagePaths)
    {
      var s := SummaryFor(cfg, papers[i].metadata, papers[i].imagePaths);
      summaries := summaries + [s];
    }
  }
}
