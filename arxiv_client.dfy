/**
 * `ArxivClient` of src/paper_review/utils/arxiv.py: which categories and
 * how many results to ask for, the category query with its fallback, and
 * the conversion of a search result into `PaperMetadata`.
 */
module ArxivClient {
  import opened Wrappers
  import opened Text
  import opened Papers
  import opened ArxivApi

  /** The `arxiv` section of the configuration: `category` ("cs.LG"), `categories` ([]) and `max_results` (1000). */
  datatype ClientSettings = ClientSettings(category: string, categories: seq<string>, maxResults: int)

  function DefaultClientSettings(): ClientSettings {
    ClientSettings("cs.LG", [], 1000)
  }

  /** `categories or self.categories or [self.category]`: the first non-empty list, never empty. */
  function ChosenCategories(cfg: ClientSettings, categories: Option<seq<string>>): (cats: seq<string>)
    ensures |cats| > 0
    ensures categories.Some? && categories.value != [] ==> cats == categories.value
    ensures (categories.None? || categories.value == []) && cfg.categories != [] ==> cats == cfg.categories
    ensures (categories.None? || categories.value == []) && cfg.categories == [] ==> cats == [cfg.category]
  {
    if categories.Some? && categories.value != [] then categories.value
    else if cfg.categories != [] then cfg.categories
    else [cfg.category]
  }

  /** `max_results or self.max_results`: an absent or zero argument falls back to the configured count. */
  function ChosenMax(cfg: ClientSettings, maxResults: Option<int>): (n: int)
    ensures maxResults.Some? && maxResults.value != 0 ==> n == maxResults.value
    ensures maxResults.None? || maxResults.value == 0 ==> n == cfg.maxResults
  {
    if maxResults.Some? && maxResults.value != 0 then maxResults.value else cfg.maxResults
  }

  /** `[f"cat:{cat}" for cat in cats]`. */
  function CatTerms(cats: seq<string>): (terms: seq<string>)
    ensures |terms| == |cats|
    ensures forall i :: 0 <= i < |cats| ==> terms[i] == "cat:" + cats[i]
  {
    seq(|cats|, i requires 0 <= i < |cats| => "cat:" + cats[i])
  }

  /**
   * The primary query. The source builds it in two branches; both are the
   * terms `cat:c` joined by " OR ", which is `cat:c1` for a single category.
   */
  function PrimaryQuery(cats: seq<string>): (q: string)
    requires |cats| > 0
    ensures q == Join(CatTerms(cats), " OR ")
    ensures |cats| == 1 ==> q == "cat:" + cats[0]
  {
    if |cats| > 1 then Join(CatTerms(cats), " OR ") else "cat:" + cats[0]
  }

  /** `any(cat in r.categories for cat in cats)`. */
  predicate SharesCategory(cats: seq<string>, r: ArxivResult) {
    exists c :: c in cats && c in r.categories
  }

  /** The fallback's keep-condition, as the function a comprehension applies. */
  function Sharing(cats: seq<string>): ArxivResult -> bool {
    r => SharesCategory(cats, r)
  }

  /** The fallback's list: in search order, the results sharing a category, cut to `max_res`. */
  function FallbackKept(cats: seq<string>, all: seq<ArxivResult>, maxRes: int): (rs: seq<ArxivResult>)
    ensures |rs| <= |Filter(all, Sharing(cats))| && rs == Filter(all, Sharing(cats))[..|rs|]
    ensures forall i :: 0 <= i < |rs| ==> rs[i] in all && SharesCategory(cats, rs[i])
    ensures maxRes >= 0 ==> |rs| <= maxRes
  {
    var kept := Filter(all, Sharing(cats));
    FilterMembers(all, Sharing(cats));
    var rs := PyTake(kept, maxRes);
    assert forall i :: 0 <= i < |rs| ==> rs[i] == kept[i] && Sharing(cats)(kept[i]);
    assert forall i :: 0 <= i < |rs| ==> SharesCategory(cats, rs[i]);
    rs
  }

  /**
   * `fetch_recent_papers`: the primary search's results when it succeeds;
   * otherwise the fallback search (the categories joined by " OR ", twice the
   * count) filtered to results sharing a category; [] when both raise.
   */
  function FetchRecentPapers(cfg: ClientSettings, search: Search, categories: Option<seq<string>>,
                             maxResults: Option<int>): (rs: seq<ArxivResult>)
    ensures var cats := ChosenCategories(cfg, categories);
            var maxRes := ChosenMax(cfg, maxResults);
            var primary := search(ByQuery(PrimaryQuery(cats), maxRes));
            var fallback := search(ByQuery(Join(cats, " OR "), maxRes * 2));
            && (primary.Success? ==> rs == primary.value)
            && (primary.Failure? && fallback.Success? ==> rs == FallbackKept(cats, fallback.value, maxRes))
            && (primary.Failure? && fallback.Failure? ==> rs == [])
  {
    var cats := ChosenCategories(cfg, categories);
    var maxRes := ChosenMax(cfg, maxResults);
    match search(ByQuery(PrimaryQuery(cats), maxRes))
    case Success(results) => results
    case Failure(_) =>
      match search(ByQuery(Join(cats, " OR "), maxRes * 2))
      case Success(all) => FallbackKept(cats, all, maxRes)
      case Failure(_) => []
  }

  /** Whatever the searches return, a result that came through the fallback shares a category and the count is bounded. */
  lemma FallbackBounded(cfg: ClientSettings, search: Search, categories: Option<seq<string>>, maxResults: Option<int>)
    requires search(ByQuery(PrimaryQuery(ChosenCategories(cfg, categories)), ChosenMax(cfg, maxResults))).Failure?
    ensures var rs := FetchRecentPapers(cfg, search, categories, maxResults);
            && (ChosenMax(cfg, maxResults) >= 0 ==> |rs| <= ChosenMax(cfg, maxResults))
            && forall i :: 0 <= i < |rs| ==> SharesCategory(ChosenCategories(cfg, categories), rs[i])
  {
  }

  /**
   * `to_paper_metadata`: the result's fields, the identifier at the end of
   * the entry URL, tags equal to the categories, source "arxiv", and the
   * Hugging Face-only fields at their defaults.
   */
  function ToPaperMetadata(r: ArxivResult): (m: PaperMetadata)
    ensures m.title == r.title && m.authors == r.authors && m.summary == r.summary
    ensures m.published == r.published && m.updated == r.updated
    ensures m.arxivId == Some(PaperId(r.entryId))
    ensures m.pdfUrl == r.pdfUrl && m.primaryCategory == r.primaryCategory
    ensures m.categories == r.categories && m.tags == r.categories
    ensures m.doi == r.doi && m.journalRef == r.journalRef && m.comment == r.comment
    ensures m.source == Arxiv
    ensures m.upvotes == 0 && m.numComments == 0 && m.githubStars == 0
    ensures m.githubRepo.None? && m.projectPage.None? && m.thumbnail.None?
  {
    PaperMetadata(r.title, r.authors, r.summary, r.published, r.updated, Some(PaperId(r.entryId)),
                  r.primaryCategory, r.categories, r.pdfUrl, r.doi, r.journalRef, r.comment,
                  0, 0, None, 0, None, None, Arxiv, r.categories)
  }

  /** The PDF `download_pdf` stores for a result is named after the `arxiv_id` its metadata carries. */
  lemma PdfNamedAfterId(r: ArxivResult, downloadDir: string)
    ensures LastSegment(PdfPath(downloadDir, r), '/') == ToPaperMetadata(r).arxivId.value + ".pdf"
  {
    PdfPathNamedAfterId(downloadDir, r);
  }
}
