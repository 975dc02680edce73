/**
 * The paper records shared by every stage: `PaperMetadata`, `NoveltyScore`
 * and `Paper` (src/paper_review/models/paper.py).
 *
 * Timestamps are integers (microseconds since the epoch). `PaperMetadata` and
 * `NoveltyScore` are values; `Paper` is a class because the ranker and the
 * fetcher assign its `novelty_score`, `pdf_path`, `full_text` and
 * `image_paths` in place.
 */
module Papers {
  import opened Wrappers

  /** The `Literal["arxiv", "huggingface"]` source tag. */
  datatype Source = Arxiv | HuggingFace

  function SourceName(s: Source): (name: string)
  {
    match s
    case Arxiv => "arxiv"
    case HuggingFace => "huggingface"
  }

  /** Validation of the literal: only the two names are accepted. */
  function ParseSource(name: string): (r: Option<Source>)
    ensures r.Some? <==> name == "arxiv" || name == "huggingface"
    ensures r.Some? ==> SourceName(r.value) == name
  {
    if name == "arxiv" then Some(Arxiv)
    else if name == "huggingface" then Some(HuggingFace)
    else None
  }

  datatype PaperMetadata = PaperMetadata(
    title: string,
    authors: seq<string>,
    summary: string,
    published: int,
    updated: Option<int>,
    arxivId: Option<string>,
    primaryCategory: string,
    categories: seq<string>,
    pdfUrl: Option<string>,
    doi: Option<string>,
    journalRef: Option<string>,
    comment: Option<string>,
    upvotes: int,
    numComments: int,
    githubRepo: Option<string>,
    githubStars: int,
    projectPage: Option<string>,
    thumbnail: Option<string>,
    source: Source,
    tags: seq<string>)

  /** `PaperMetadata(...)` given only its required fields: every other field takes its declared default. */
  function NewMetadata(title: string, authors: seq<string>, summary: string, published: int,
                       primaryCategory: string, source: Source): (m: PaperMetadata)
    ensures m.title == title && m.authors == authors && m.summary == summary
    ensures m.published == published && m.primaryCategory == primaryCategory && m.source == source
    ensures m.updated.None? && m.arxivId.None? && m.pdfUrl.None? && m.doi.None?
    ensures m.journalRef.None? && m.comment.None? && m.githubRepo.None?
    ensures m.projectPage.None? && m.thumbnail.None?
    ensures m.upvotes == 0 && m.numComments == 0 && m.githubStars == 0
    ensures m.categories == [] && m.tags == []
  {
    PaperMetadata(title, authors, summary, published, None, None, primaryCategory, [], None, None,
                  None, None, 0, 0, None, 0, None, None, source, [])
  }

  /** The ranker's verdict on one paper; every field is required. */
  datatype NoveltyScore = NoveltyScore(
    totalScore: real,
    novelty: real,
    impact: real,
    clarity: real,
    reasoning: string)

  /** A paper moving through the pipeline. `metadata` is never reassigned. */
  class Paper {
    const metadata: PaperMetadata
    var pdfPath: Option<string>
    var fullText: Option<string>
    var imagePaths: seq<string>
    var noveltyScore: Option<NoveltyScore>

    /** `Paper(metadata=...)`: no PDF, no text, no images and no score yet. */
    constructor (metadata: PaperMetadata)
      ensures this.metadata == metadata
      ensures pdfPath.None? && fullText.None? && imagePaths == [] && noveltyScore.None?
    {
      this.metadata := metadata;
      pdfPath := None;
      fullText := None;
      imagePaths := [];
      noveltyScore := None;
    }
  }

  /** The metadata of each paper, in order. */
  function Metadatas(papers: seq<Paper>): (ms: seq<PaperMetadata>)
    ensures |ms| == |papers|
    ensures forall i :: 0 <= i < |papers| ==> ms[i] == papers[i].metadata
  {
    seq(|papers|, i requires 0 <= i < |papers| => papers[i].metadata)
  }

  /** No paper object occurs twice. */
  predicate Distinct(papers: seq<Paper>) {
    forall i, j :: 0 <= i < j < |papers| ==> papers[i] != papers[j]
  }

  /** The state of a fresh `Paper`. */
  predicate Unprocessed(p: Paper)
    reads p
  {
    p.pdfPath.None? && p.fullText.None? && p.imagePaths == [] && p.noveltyScore.None?
  }

  lemma MetadatasSnoc(papers: seq<Paper>, p: Paper)
    ensures Metadatas(papers + [p]) == Metadatas(papers) + [p.metadata]
  {
  }

  /** A list without repeats holds each paper at most once. */
  lemma {:induction false} DistinctCounts(s: seq<Paper>)
    requires Distinct(s)
    ensures forall x :: multiset(s)[x] <= 1
  {
    if |s| > 0 {
      var rest := s[1..];
      assert Distinct(rest) by {
        forall i, j | 0 <= i < j < |rest| ensures rest[i] != rest[j] {
          assert rest[i] == s[i + 1] && rest[j] == s[j + 1];
        }
      }
      DistinctCounts(rest);
      assert s == [s[0]] + rest;
      assert s[0] !in rest by {
        forall j | 0 <= j < |rest| ensures rest[j] != s[0] {
          assert rest[j] == s[j + 1];
        }
      }
      assert multiset(rest)[s[0]] == 0;
    }
  }

  /** A list holding each paper at most once has no repeats. */
  lemma CountsDistinct(s: seq<Paper>)
    requires forall x :: multiset(s)[x] <= 1
    ensures Distinct(s)
  {
    forall i, j | 0 <= i < j < |s| ensures s[i] != s[j] {
      assert s == s[..j] + s[j..];
      assert s[i] in multiset(s[..j]) by { assert s[i] == s[..j][i]; }
      assert s[j] in multiset(s[j..]) by { assert s[j] == s[j..][0]; }
      assert multiset(s) == multiset(s[..j]) + multiset(s[j..]);
      assert multiset(s)[s[i]] == multiset(s[..j])[s[i]] + multiset(s[j..])[s[i]];
      assert multiset(s[j..])[s[i]] == 0;
    }
  }
}
