/**
 * The paper dictionaries that the dictionary-based agents pass along
 * (agents/fetcher.py, utils/novelty_ranker.py, agents/summarizer.py).
 *
 * A Python dictionary may lack any key, so every key these agents read is an
 * `Option`: `None` means the key is absent, and reading it raises `KeyError`.
 */
module Records {
  import opened Wrappers
  import opened LegacyArxivClient
  import opened Scoring

  /** The message of the `KeyError` that reading an absent key raises. */
  function KeyErrorMessage(key: string): string {
    "'" + key + "'"
  }

  /**
   * A `metadata` dictionary: either the one `extract_metadata` builds, which
   * has every key, or any other dictionary, of which only the keys the agents
   * read are kept.
   */
  datatype MetaDict =
    | Extracted(m: ExtractedMetadata)
    | Other(title: Option<string>, authors: Option<seq<string>>, summary: Option<string>, arxivId: Option<string>)
  {
    function Title(): Option<string> {
      match this
      case Extracted(m) => Some(m.title)
      case Other(t, _, _, _) => t
    }

    function Authors(): Option<seq<string>> {
      match this
      case Extracted(m) => Some(m.authors)
      case Other(_, a, _, _) => a
    }

    function Summary(): Option<string> {
      match this
      case Extracted(m) => Some(m.summary)
      case Other(_, _, s, _) => s
    }

    function ArxivId(): Option<string> {
      match this
      case Extracted(m) => Some(m.arxivId)
      case Other(_, _, _, id) => id
    }
  }

  /**
   * A paper dictionary: `metadata`, `pdf_path`, `full_text`, `image_paths`
   * and, once ranked, `novelty_score`.
   */
  datatype PaperRecord = PaperRecord(
    metadata: Option<MetaDict>,
    pdfPath: Option<string>,
    fullText: Option<string>,
    imagePaths: Option<seq<string>>,
    noveltyScore: Option<ScoreRecord>)

  /** A record that has every key the ranker and the summarizer read. */
  predicate Complete(r: PaperRecord) {
    r.metadata.Some? && r.metadata.value.Title().Some? && r.metadata.value.Authors().Some?
    && r.metadata.value.Summary().Some? && r.metadata.value.ArxivId().Some?
  }
}
