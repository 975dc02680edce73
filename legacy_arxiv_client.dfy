/**
 * The older `ArxivClient` of utils/arxiv_client.py: one configured
 * category, the same primary/fallback search, and `extract_metadata`,
 * which returns a plain record rather than `PaperMetadata`.
 */
module LegacyArxivClient {
  import opened Wrappers
  import opened Text
  import opened Filters
  import opened ArxivApi

  /** `category` ("eess.AS") and `max_results` (10). */
  datatype LegacySettings = LegacySettings(category: string, maxResults: int)

  function DefaultLegacySettings(): LegacySettings {
    LegacySettings("eess.AS", 10)
  }

  /** The fallback's keep-condition: `self.category in r.categories`. */
  function ListsCategory(category: string): ArxivResult -> bool {
    (r: ArxivResult) => category in r.categories
  }

  /**
   * `fetch_recent_papers`: `cat:{category}` with `max_results`; on failure the
   * bare category with twice the count, keeping the results that list the
   * category, cut to `max_results`; [] when both raise.
   */
  function FetchRecentPapers(cfg: LegacySettings, search: Search): (rs: seq<ArxivResult>)
    ensures var primary := search(ByQuery("cat:" + cfg.category, cfg.maxResults));
            var fallback := search(ByQuery(cfg.category, cfg.maxResults * 2));
            && (primary.Success? ==> rs == primary.value)
            && (primary.Failure? && fallback.Success? ==>
                  var kept := Filter(fallback.value, ListsCategory(cfg.category));
                  && |rs| <= |kept| && rs == kept[..|rs|]
                  && (cfg.maxResults >= 0 ==> |rs| == Min(cfg.maxResults, |kept|))
                  && forall i :: 0 <= i < |rs| ==> cfg.category in rs[i].categories)
            && (primary.Failure? && fallback.Failure? ==> rs == [])
  {
    match search(ByQuery("cat:" + cfg.category, cfg.maxResults))
    case Success(results) => results
    case Failure(_) =>
      match search(ByQuery(cfg.category, cfg.maxResults * 2))
      case Success(all) =>
        var kept := Filter(all, ListsCategory(cfg.category));
        FilterMembers(all, ListsCategory(cfg.category));
        var rs := PyTake(kept, cfg.maxResults);
        assert forall i :: 0 <= i < |rs| ==> rs[i] == kept[i] && ListsCategory(cfg.category)(kept[i]);
        rs
      case Failure(_) => []
  }

  /** `extract_metadata`'s dictionary. Dates are day numbers, standing for their `%Y-%m-%d` text. */
  datatype ExtractedMetadata = ExtractedMetadata(
    title: string,
    authors: seq<string>,
    summary: string,
    published: int,
    updated: Option<int>,
    arxivId: string,
    pdfUrl: Option<string>,
    primaryCategory: string,
    categories: seq<string>,
    doi: Option<string>,
    journalRef: Option<string>,
    comment: Option<string>)

  /** The calendar day of an instant: what `strftime('%Y-%m-%d')` keeps of it. */
  function Day(t: int): (d: int)
    ensures d * MicrosPerDay <= t < (d + 1) * MicrosPerDay
  {
    t / MicrosPerDay
  }

  /** `extract_metadata`: the identifier after the last "/", and no `updated` day when the result has none. */
  function ExtractMetadata(r: ArxivResult): (m: ExtractedMetadata)
    ensures m.arxivId == PaperId(r.entryId) && '/' !in m.arxivId
    ensures m.updated.Some? <==> r.updated.Some?
    ensures r.updated.Some? ==> m.updated.value * MicrosPerDay <= r.updated.value < (m.updated.value + 1) * MicrosPerDay
    ensures m.published * MicrosPerDay <= r.published < (m.published + 1) * MicrosPerDay
    ensures m.title == r.title && m.authors == r.authors && m.summary == r.summary
    ensures m.pdfUrl == r.pdfUrl && m.primaryCategory == r.primaryCategory && m.categories == r.categories
    ensures m.doi == r.doi && m.journalRef == r.journalRef && m.comment == r.comment
  {
    ExtractedMetadata(r.title, r.authors, r.summary, Day(r.published),
                      if r.updated.Some? then Some(Day(r.updated.value)) else None,
                      PaperId(r.entryId), r.pdfUrl, r.primaryCategory, r.categories,
                      r.doi, r.journalRef, r.comment)
  }
}
