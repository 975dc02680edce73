/**
 * `ArxivFetcher` of src/paper_review/agents/fetcher/arxiv.py: fetch the
 * metadata of recent papers and keep those passing the filters, then,
 * optionally, download each paper's PDF and extract its text and images
 * into the `Paper` object itself.
 */
module ArxivFetcher {
  import opened Wrappers
  import opened Text
  import opened Papers
  import opened Filters
  import opened ArxivApi
  import opened ArxivClient
  import opened Images

  /**
   * The fetcher's collaborators: the client's settings, the arXiv search and
   * download, `extract_text` (which returns "" on any failure, so it is a
   * plain function of the path), opening a PDF for the image extractor, the
   * extractor's settings, and the papers and images directories.
   */
  datatype FetcherEnv = FetcherEnv(
    client: ClientSettings,
    search: Search,
    download: Downloader,
    textOf: string -> string,
    openPdf: string -> Result<seq<Page>>,
    images: ImageSettings,
    papersDir: string,
    imagesDir: string)

  // ---------------------------------------------------------------------
  // Stage 1: metadata only
  // ---------------------------------------------------------------------

  /** `_apply_filters`: `published` inside the inclusive window, and the AND/OR category test. */
  function ApplyFilters(f: FilterConfig, now: int, m: PaperMetadata): (ok: bool)
    ensures ok <==>
      && DateRange(f, now).start <= m.published <= DateRange(f, now).end
      && (|| f.arxivCategories == []
          || (f.arxivFilterMode == And && forall c :: c in f.arxivCategories ==> c in m.categories)
          || (f.arxivFilterMode == Or && exists c :: c in f.arxivCategories && c in m.categories))
  {
    TagFilterMeaning(f.arxivCategories, m.categories, f.arxivFilterMode);
    InWindow(DateRange(f, now), m.published) && TagFilterPasses(f.arxivCategories, m.categories, f.arxivFilterMode)
  }

  function Keep(f: FilterConfig, now: int): PaperMetadata -> bool {
    m => ApplyFilters(f, now, m)
  }

  /** `[to_paper_metadata(r) for r in results]`. */
  function Converted(rs: seq<ArxivResult>): (ms: seq<PaperMetadata>)
    ensures |ms| == |rs|
    ensures forall i :: 0 <= i < |rs| ==> ms[i] == ToPaperMetadata(rs[i])
  {
    seq(|rs|, i requires 0 <= i < |rs| => ToPaperMetadata(rs[i]))
  }

  /** `arxiv_categories if arxiv_categories else None`. */
  function CategoryArgument(f: FilterConfig): (arg: Option<seq<string>>)
    ensures arg.None? <==> f.arxivCategories == []
    ensures arg.Some? ==> arg.value == f.arxivCategories
  {
    if f.arxivCategories != [] then Some(f.arxivCategories) else None
  }

  /** The client's results for the filter, in client order. */
  function ClientResults(env: FetcherEnv, f: FilterConfig): seq<ArxivResult> {
    FetchRecentPapers(env.client, env.search, CategoryArgument(f), None)
  }

  /** The metadata `fetch_metadata_only` keeps: none unless arXiv is selected, else the converted results passing the filters. */
  function MetadataOnly(env: FetcherEnv, f: FilterConfig, now: int): (ms: seq<PaperMetadata>)
    ensures Arxiv !in f.sources ==> ms == []
    ensures forall i :: 0 <= i < |ms| ==> ms[i].source == Arxiv && ApplyFilters(f, now, ms[i])
    ensures forall i :: 0 <= i < |ms| ==> ms[i] in Converted(ClientResults(env, f))
  {
    if Arxiv !in f.sources then []
    else
      var ms := Filter(Converted(ClientResults(env, f)), Keep(f, now));
      FilterMembers(Converted(ClientResults(env, f)), Keep(f, now));
      assert forall i :: 0 <= i < |ms| ==> ms[i] in Converted(ClientResults(env, f)) && Keep(f, now)(ms[i]);
      ms
  }

  /**
   * `fetch_metadata_only`: a fresh `Paper` for each result that passes the
   * filters, in client order. `now` stands for the clock `get_date_range`
   * reads.
   */
  method FetchMetadataOnly(env: FetcherEnv, f: FilterConfig, now: int) returns (papers: seq<Paper>)
    ensures Metadatas(papers) == MetadataOnly(env, f, now)
    ensures forall p :: p in papers ==> fresh(p)
    ensures Contents(papers) == Blank(|papers|)
    ensures Distinct(papers)
  {
    if Arxiv !in f.sources {
      return [];
    }
    var results := ClientResults(env, f);
    ghost var converted := Converted(results);
    papers := [];
    var i := 0;
    while i < |results|
      invariant 0 <= i <= |results|
      invariant Metadatas(papers) == Filter(converted[..i], Keep(f, now))
      invariant forall p :: p in papers ==> fresh(p)
      invariant forall k :: 0 <= k < |papers| ==> Unprocessed(papers[k])
      invariant Distinct(papers)
    {
      var metadata := ToPaperMetadata(results[i]);
      assert metadata == converted[i];
      TakeSnoc(converted, i);
      papers := KeepNext(papers, metadata, Keep(f, now), converted[..i]);
      i := i + 1;
    }
    assert converted[..i] == converted;
    assert forall k :: 0 <= k < |papers| ==> Contents(papers)[k] == Blank(|papers|)[k];
  }

  /** One pass of the loop of `FetchMetadataOnly`: a fresh paper for `m` appended when `m` passes the filters. */
  method KeepNext(papers: seq<Paper>, m: PaperMetadata, keep: PaperMetadata -> bool, ghost seen: seq<PaperMetadata>)
    returns (next: seq<Paper>)
    requires Metadatas(papers) == Filter(seen, keep)
    requires Distinct(papers)
    requires forall k :: 0 <= k < |papers| ==> Unprocessed(papers[k])
    ensures Metadatas(next) == Filter(seen + [m], keep)
    ensures Distinct(next)
    ensures forall k :: 0 <= k < |next| ==> Unprocessed(next[k])
    ensures forall p :: p in next ==> p in papers || fresh(p)
  {
    FilterSnoc(seen, m, keep);
    next := papers;
    if keep(m) {
      var paper := new Paper(m);
      MetadatasSnoc(papers, paper);
      next := papers + [paper];
    }
  }

  // ---------------------------------------------------------------------
  // Stage 2: downloading and extracting content in place
  // ---------------------------------------------------------------------

  /** The mutable fields of a paper: the three `process_paper` fills in, and the score it leaves alone. */
  datatype Content = Content(pdfPath: Option<string>, fullText: Option<string>, imagePaths: seq<string>,
                             noveltyScore: Option<NoveltyScore>)

  /** The contents of `n` fresh papers. */
  function Blank(n: nat): (cs: seq<Content>)
    ensures |cs| == n
  {
    seq(n, _ => Content(None, None, [], None))
  }

  function ContentOf(p: Paper): Content
    reads p
  {
    Content(p.pdfPath, p.fullText, p.imagePaths, p.noveltyScore)
  }

  /** A truthy optional string: present and not "". */
  predicate Truthy(s: Option<string>) {
    s.Some? && s.value != ""
  }

  /** The result `process_paper` downloads: the first hit of a search by the paper's id, when it has an id and a PDF URL. */
  function Target(env: FetcherEnv, m: PaperMetadata): (r: Option<ArxivResult>)
    ensures r.Some? ==> Truthy(m.arxivId) && Truthy(m.pdfUrl)
  {
    if !Truthy(m.arxivId) || !Truthy(m.pdfUrl) then None
    else match env.search(ById(m.arxivId.value))
      case Success(found) => if |found| > 0 then Some(found[0]) else None
      case Failure(_) => None
  }

  /** The PDF path `process_paper` assigns, given the files on disk; None when it stops before assigning anything. */
  function Downloaded(env: FetcherEnv, files: set<string>, m: PaperMetadata): Option<string> {
    match Target(env, m)
    case None => None
    case Some(r) =>
      if PdfPath(env.papersDir, r) in files || env.download(r) then Some(PdfPath(env.papersDir, r)) else None
  }

  /**
   * A PDF path is assigned exactly when the paper has an id and a PDF URL,
   * the search by id finds it, and its file is on disk or downloads; the
   * path is then the file named after the search hit's id.
   */
  lemma DownloadedMeaning(env: FetcherEnv, files: set<string>, m: PaperMetadata)
    ensures var path := Downloaded(env, files, m);
            var t := Target(env, m);
            && (path.Some? <==> t.Some? && (PdfPath(env.papersDir, t.value) in files || env.download(t.value)))
            && (path.Some? ==> Truthy(m.arxivId) && Truthy(m.pdfUrl))
            && (path.Some? ==> path.value == PdfPath(env.papersDir, t.value)
                               && LastSegment(path.value, '/') == PaperId(t.value.entryId) + ".pdf")
  {
    if Target(env, m).Some? {
      PdfPathNamedAfterId(env.papersDir, Target(env, m).value);
    }
  }

  /** The files on disk after processing a paper. */
  function DiskAfter(env: FetcherEnv, files: set<string>, m: PaperMetadata): set<string> {
    var d := Downloaded(env, files, m);
    if d.Some? then files + {d.value} else files
  }

  /** The files on disk after processing papers with these metadata, one after the other. */
  function FilesAfter(env: FetcherEnv, files: set<string>, ms: seq<PaperMetadata>): set<string> {
    if |ms| == 0 then files else DiskAfter(env, FilesAfter(env, files, ms[..|ms| - 1]), ms[|ms| - 1])
  }

  /** What the paper's content becomes: the path, the extracted text and the extracted images once the PDF is there, else `old`. */
  function Step(env: FetcherEnv, files: set<string>, m: PaperMetadata, old_: Content): Content {
    match Downloaded(env, files, m)
    case None => old_
    case Some(path) =>
      Content(Some(path), Some(env.textOf(path)), Extraction(env.images, env.openPdf(path), env.imagesDir, m.arxivId.value),
              old_.noveltyScore)
  }

  /**
   * `process_paper`: returns the same object. Without an id, a PDF URL, a
   * search hit or a successful download nothing is assigned (a raised
   * exception is caught before the first assignment); otherwise `pdf_path`,
   * `full_text` and `image_paths` are set. The score and the metadata are
   * untouched.
   */
  method ProcessPaper(env: FetcherEnv, disk: Disk, paper: Paper) returns (r: Paper)
    modifies paper, disk
    ensures r == paper
    ensures disk.files == DiskAfter(env, old(disk.files), paper.metadata)
    ensures ContentOf(paper) == Step(env, old(disk.files), paper.metadata, old(ContentOf(paper)))
  {
    r := paper;
    var paperId := paper.metadata.arxivId;
    if paperId.None? || paperId.value == "" {
      assert Target(env, paper.metadata) == None;
      return;
    }
    var pdfUrl := paper.metadata.pdfUrl;
    if pdfUrl.Some? && pdfUrl.value != "" {
      var found := env.search(ById(paperId.value));
      if found.Success? && |found.value| > 0 {
        assert Target(env, paper.metadata) == Some(found.value[0]);
        ProcessHit(env, disk, paper, found.value[0]);
        return;
      }
    }
    assert Target(env, paper.metadata) == None;
  }

  /** The rest of `process_paper` once the search by id has found `hit`: download, then fill in the paper. */
  method ProcessHit(env: FetcherEnv, disk: Disk, paper: Paper, hit: ArxivResult)
    requires Target(env, paper.metadata) == Some(hit)
    modifies paper, disk
    ensures disk.files == DiskAfter(env, old(disk.files), paper.metadata)
    ensures ContentOf(paper) == Step(env, old(disk.files), paper.metadata, old(ContentOf(paper)))
  {
    var pdfPath := DownloadPdf(disk, env.download, hit, env.papersDir);
    if pdfPath.Success? {
      paper.pdfPath := Some(pdfPath.value);
      paper.fullText := Some(env.textOf(pdfPath.value));
      var imagePaths := ExtractImages(env.images, env.openPdf(pdfPath.value), env.imagesDir, paper.metadata.arxivId.value);
      paper.imagePaths := imagePaths;
    }
  }

  /** The contents of the papers, in order. */
  function Contents(papers: seq<Paper>): (cs: seq<Content>)
    reads set p | p in papers
    ensures |cs| == |papers|
    ensures forall i :: 0 <= i < |papers| ==> cs[i] == ContentOf(papers[i])
  {
    seq(|papers|, i reads set p | p in papers requires 0 <= i < |papers| => ContentOf(papers[i]))
  }

  /** The contents after processing papers with metadata `ms` and contents `before`, in turn, starting from `files`. */
  function ProcessedContents(env: FetcherEnv, files: set<string>, ms: seq<PaperMetadata>, before: seq<Content>): (cs: seq<Content>)
    requires |before| == |ms|
    ensures |cs| == |ms|
  {
    seq(|ms|, i requires 0 <= i < |ms| => Step(env, FilesAfter(env, files, ms[..i]), ms[i], before[i]))
  }

  /** Paper `i` is processed with the files left by the papers before it. */
  lemma ProcessedAt(env: FetcherEnv, files: set<string>, ms: seq<PaperMetadata>, before: seq<Content>, i: nat)
    requires |before| == |ms| && i < |ms|
    ensures ProcessedContents(env, files, ms, before)[i] == Step(env, FilesAfter(env, files, ms[..i]), ms[i], before[i])
  {
  }

  /** `process_paper` on each paper in turn; the disk carries over from one paper to the next. */
  method ProcessAll(env: FetcherEnv, disk: Disk, papers: seq<Paper>) returns (out: seq<Paper>)
    requires Distinct(papers)
    modifies disk, set p | p in papers
    ensures out == papers
    ensures disk.files == FilesAfter(env, old(disk.files), Metadatas(papers))
    ensures Contents(papers) == ProcessedContents(env, old(disk.files), Metadatas(papers), old(Contents(papers)))
  {
    ghost var ms := Metadatas(papers);
    ghost var files0 := disk.files;
    ghost var before := Contents(papers);
    ghost var after := ProcessedContents(env, files0, ms, before);
    out := [];
    var i := 0;
    while i < |papers|
      invariant 0 <= i <= |papers|
      invariant out == papers[..i]
      invariant disk.files == FilesAfter(env, files0, ms[..i])
      invariant forall j :: 0 <= j < i ==> ContentOf(papers[j]) == after[j]
      invariant forall j :: i <= j < |papers| ==> ContentOf(papers[j]) == before[j]
    {
      TakeSnoc(papers, i);
      var q := ProcessNext(env, disk, papers, i, files0, before);
      out := out + [q];
      i := i + 1;
    }
    assert ms[..i] == ms;
    assert forall j :: 0 <= j < |papers| ==> Contents(papers)[j] == after[j];
  }

  /** One pass of the loop of `ProcessAll`: paper `i` processed on the disk the papers before it left; the others are untouched. */
  method ProcessNext(env: FetcherEnv, disk: Disk, papers: seq<Paper>, i: nat, ghost files0: set<string>, ghost before: seq<Content>)
    returns (q: Paper)
    requires Distinct(papers) && i < |papers| == |before|
    requires disk.files == FilesAfter(env, files0, Metadatas(papers)[..i])
    requires ContentOf(papers[i]) == before[i]
    modifies disk, papers[i]
    ensures q == papers[i]
    ensures disk.files == FilesAfter(env, files0, Metadatas(papers)[..i + 1])
    ensures ContentOf(papers[i]) == ProcessedContents(env, files0, Metadatas(papers), before)[i]
    ensures forall j :: 0 <= j < |papers| && j != i ==> ContentOf(papers[j]) == old(ContentOf(papers[j]))
  {
    var ms := Metadatas(papers);
    TakeSnoc(ms, i);
    ProcessedAt(env, files0, ms, before, i);
    q := ProcessPaper(env, disk, papers[i]);
    forall j | 0 <= j < |papers| && j != i
      ensures ContentOf(papers[j]) == old(ContentOf(papers[j]))
    {
      assert papers[j] != papers[i];
    }
  }

  /**
   * `execute`: the metadata-only papers, then, when `process_pdfs` is set and
   * there are any, each processed in turn. The list keeps its length and order.
   */
  method Execute(env: FetcherEnv, disk: Disk, f: FilterConfig, now: int, processPdfs: bool)
    returns (papers: seq<Paper>)
    modifies disk
    ensures Metadatas(papers) == MetadataOnly(env, f, now)
    ensures Distinct(papers) && forall p :: p in papers ==> fresh(p)
    ensures !processPdfs ==> disk.files == old(disk.files) && Contents(papers) == Blank(|papers|)
    ensures processPdfs ==>
      && disk.files == FilesAfter(env, old(disk.files), Metadatas(papers))
      && Contents(papers) == ProcessedContents(env, old(disk.files), Metadatas(papers), Blank(|papers|))
  {
    papers := FetchMetadataOnly(env, f, now);
    if processPdfs && |papers| > 0 {
      papers := ProcessAll(env, disk, papers);
    }
  }

  // ---------------------------------------------------------------------
  // Downloading is idempotent
  // ---------------------------------------------------------------------

  /** Processing a paper again finds its PDF on disk: the same path, and nothing more is written. */
  lemma ProcessingAgainFindsPdf(env: FetcherEnv, files: set<string>, m: PaperMetadata)
    requires Downloaded(env, files, m).Some?
    ensures Downloaded(env, DiskAfter(env, files, m), m) == Downloaded(env, files, m)
    ensures DiskAfter(env, DiskAfter(env, files, m), m) == DiskAfter(env, files, m)
  {
  }

  /** A file gained by processing one paper is the PDF that paper downloaded. */
  lemma DiskAfterAdds(env: FetcherEnv, files: set<string>, m: PaperMetadata, x: string)
    requires x in DiskAfter(env, files, m) && x !in files
    ensures Downloaded(env, files, m) == Some(x)
  {
  }

  /** The disk only ever gains files. */
  lemma {:induction false} FilesAfterGrows(env: FetcherEnv, files: set<string>, ms: seq<PaperMetadata>)
    ensures files <= FilesAfter(env, files, ms)
  {
    if |ms| > 0 {
      FilesAfterGrows(env, files, ms[..|ms| - 1]);
    }
  }

  /** Each file the batch adds to the disk is the PDF some paper in it downloaded. */
  lemma {:induction false} FilesAfterAddsOnlyDownloads(env: FetcherEnv, files: set<string>, ms: seq<PaperMetadata>, x: string)
    requires x in FilesAfter(env, files, ms) && x !in files
    ensures exists i :: 0 <= i < |ms| && Downloaded(env, FilesAfter(env, files, ms[..i]), ms[i]) == Some(x)
  {
    var init := ms[..|ms| - 1];
    var last := ms[|ms| - 1];
    var mid := FilesAfter(env, files, init);
    if x in mid {
      FilesAfterAddsOnlyDownloads(env, files, init, x);
      var i :| 0 <= i < |init| && Downloaded(env, FilesAfter(env, files, init[..i]), init[i]) == Some(x);
      assert init[..i] == ms[..i] && init[i] == ms[i];
    } else {
      DiskAfterAdds(env, mid, last, x);
      assert ms[..|ms| - 1] == init;
    }
  }
}
