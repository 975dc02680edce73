/**
 * `FetcherAgent.fetch_papers` of agents/fetcher.py: for each result of the
 * legacy client, build its metadata, download its PDF, extract its text and
 * images, and append the paper dictionary; a result whose processing raises
 * is skipped and the loop goes on.
 *
 * Of the steps, only the download can raise here: `extract_metadata` is
 * total on the modelled results, and text and image extraction catch their
 * own failures (an unreadable PDF gives "" and no images).
 */
module FetchAgent {
  import opened Wrappers
  import opened Text
  import opened ArxivApi
  import opened LegacyArxivClient
  import opened Images
  import opened Records

  /** `{'metadata', 'pdf_path', 'full_text', 'image_paths'}`: the dictionary built for each processed paper. */
  datatype PaperData = PaperData(metadata: ExtractedMetadata, pdfPath: string, fullText: string, imagePaths: seq<string>)

  /**
   * The agent's surroundings: the client's settings and search, the PDF
   * download, the text of a PDF (`extract_text`, "" when it cannot be read),
   * the pages of a PDF, the image settings, and `papers_dir` / `images_dir`
   * (by default "data/papers" and "data/images").
   */
  datatype AgentEnv = AgentEnv(
    client: LegacySettings,
    search: Search,
    download: Downloader,
    textOf: string -> string,
    openPdf: string -> Result<seq<Page>>,
    images: ImageSettings,
    papersDir: string,
    imagesDir: string)

  /** The results `fetch_papers` walks through. */
  function Results(env: AgentEnv): seq<ArxivResult> {
    FetchRecentPapers(env.client, env.search)
  }

  /**
   * The dictionary built for a result once its PDF is on disk: images are
   * extracted under the paper's arXiv id, which is the last segment of its
   * entry id.
   */
  function DataOf(env: AgentEnv, r: ArxivResult): (d: PaperData)
    ensures d.metadata == ExtractMetadata(r) && d.metadata.arxivId == PaperId(r.entryId)
    ensures d.pdfPath == PdfPath(env.papersDir, r)
    ensures d.fullText == env.textOf(d.pdfPath)
    ensures |d.imagePaths| <= Max(0, env.images.maxImages)
    ensures forall k :: 0 <= k < |d.imagePaths| ==> d.imagePaths[k] == ImagePath(env.images, env.imagesDir, PaperId(r.entryId), k + 1)
  {
    var m := ExtractMetadata(r);
    var path := PdfPath(env.papersDir, r);
    PaperData(m, path, env.textOf(path), Extraction(env.images, env.openPdf(path), env.imagesDir, m.arxivId))
  }

  /** Processing a result raises exactly when its PDF is not on disk and cannot be downloaded. */
  predicate Skipped(env: AgentEnv, files: set<string>, r: ArxivResult) {
    PdfPath(env.papersDir, r) !in files && !env.download(r)
  }

  /** The files after processing one result. */
  function FilesAfterOne(env: AgentEnv, files: set<string>, r: ArxivResult): set<string> {
    if PdfPath(env.papersDir, r) in files || !env.download(r) then files else files + {PdfPath(env.papersDir, r)}
  }

  /** The files after processing the results in order. */
  function FilesAfterAll(env: AgentEnv, files: set<string>, rs: seq<ArxivResult>): set<string> {
    if |rs| == 0 then files
    else FilesAfterOne(env, FilesAfterAll(env, files, rs[..|rs| - 1]), rs[|rs| - 1])
  }

  /** The dictionaries built for the results in order, skipping the ones whose processing raises. */
  function FetchedAll(env: AgentEnv, files: set<string>, rs: seq<ArxivResult>): seq<PaperData> {
    if |rs| == 0 then []
    else
      var init := rs[..|rs| - 1];
      FetchedAll(env, files, init)
      + (if Skipped(env, FilesAfterAll(env, files, init), rs[|rs| - 1]) then [] else [DataOf(env, rs[|rs| - 1])])
  }

  /** The positions of the results that were not skipped. */
  function KeptPositions(env: AgentEnv, files: set<string>, rs: seq<ArxivResult>): seq<nat> {
    if |rs| == 0 then []
    else
      var init := rs[..|rs| - 1];
      KeptPositions(env, files, init)
      + (if Skipped(env, FilesAfterAll(env, files, init), rs[|rs| - 1]) then [] else [|rs| - 1])
  }

  /** `fetch_papers`, with the files on disk threaded through the downloads. */
  method FetchPapers(env: AgentEnv, disk: Disk) returns (out: seq<PaperData>)
    modifies disk
    ensures out == FetchedAll(env, old(disk.files), Results(env))
    ensures disk.files == FilesAfterAll(env, old(disk.files), Results(env))
  {
    var results := FetchRecentPapers(env.client, env.search);
    ghost var files0 := disk.files;
    out := [];
    for i := 0 to |results|
      invariant out == FetchedAll(env, files0, results[..i])
      invariant disk.files == FilesAfterAll(env, files0, results[..i])
    {
      var r := results[i];
      var metadata := ExtractMetadata(r);
      var paperId := metadata.arxivId;
      TakeSnoc(results, i);
      assert results[..i + 1][..i] == results[..i];
      var pdf := DownloadPdf(disk, env.download, r, env.papersDir);
      if pdf.Failure? {
        continue;
      }
      var fullText := env.textOf(pdf.value);
      var imagePaths := ExtractImages(env.images, env.openPdf(pdf.value), env.imagesDir, paperId);
      out := out + [PaperData(metadata, pdf.value, fullText, imagePaths)];
    }
    assert results[..|results|] == results;
  }

  // ---------------------------------------------------------------------
  // What the loop promises
  // ---------------------------------------------------------------------

  /** Positions below `n`, in increasing order. */
  predicate IncreasingBelow(idx: seq<nat>, n: int) {
    (forall k :: 0 <= k < |idx| ==> idx[k] < n) && (forall a, b :: 0 <= a < b < |idx| ==> idx[a] < idx[b])
  }

  /** The kept positions are positions of the input, in increasing order. */
  lemma {:induction false} KeptPositionsOrdered(env: AgentEnv, files: set<string>, rs: seq<ArxivResult>)
    ensures IncreasingBelow(KeptPositions(env, files, rs), |rs|)
  {
    if |rs| > 0 {
      var prev := KeptPositions(env, files, rs[..|rs| - 1]);
      KeptPositionsOrdered(env, files, rs[..|rs| - 1]);
      assert IncreasingBelow(prev, |rs| - 1);
      var idx := KeptPositions(env, files, rs);
      if idx != prev {
        assert idx == prev + [|rs| - 1];
        SnocIncreasing(prev, |rs| - 1);
      }
    }
  }

  lemma SnocIncreasing(prev: seq<nat>, n: nat)
    requires IncreasingBelow(prev, n)
    ensures IncreasingBelow(prev + [n], n + 1)
  {
  }

  /** A result is kept exactly when it is not skipped, given the files its predecessors left on disk. */
  lemma {:induction false} KeptPositionsMeaning(env: AgentEnv, files: set<string>, rs: seq<ArxivResult>)
    ensures forall j :: 0 <= j < |rs| ==>
      (j in KeptPositions(env, files, rs) <==> !Skipped(env, FilesAfterAll(env, files, rs[..j]), rs[j]))
  {
    if |rs| > 0 {
      var init := rs[..|rs| - 1];
      KeptPositionsMeaning(env, files, init);
      forall j | 0 <= j < |rs|
        ensures j in KeptPositions(env, files, rs) <==> !Skipped(env, FilesAfterAll(env, files, rs[..j]), rs[j])
      {
        if j < |init| {
          InitKept(env, files, rs, j);
        } else {
          LastKept(env, files, rs);
        }
      }
    }
  }

  lemma InitKept(env: AgentEnv, files: set<string>, rs: seq<ArxivResult>, j: nat)
    requires j < |rs| - 1
    requires j in KeptPositions(env, files, rs[..|rs| - 1])
             <==> !Skipped(env, FilesAfterAll(env, files, rs[..|rs| - 1][..j]), rs[..|rs| - 1][j])
    ensures j in KeptPositions(env, files, rs) <==> !Skipped(env, FilesAfterAll(env, files, rs[..j]), rs[j])
  {
    assert rs[..|rs| - 1][..j] == rs[..j];
  }

  lemma LastKept(env: AgentEnv, files: set<string>, rs: seq<ArxivResult>)
    requires |rs| > 0
    ensures |rs| - 1 in KeptPositions(env, files, rs)
            <==> !Skipped(env, FilesAfterAll(env, files, rs[..|rs| - 1]), rs[|rs| - 1])
  {
    var prev := KeptPositions(env, files, rs[..|rs| - 1]);
    KeptPositionsOrdered(env, files, rs[..|rs| - 1]);
    assert IncreasingBelow(prev, |rs| - 1);
    assert |rs| - 1 !in prev;
  }

  /** The output is the dictionaries of the kept results, in their order: an order-preserving subsequence. */
  lemma {:induction false} FetchedFromKept(env: AgentEnv, files: set<string>, rs: seq<ArxivResult>)
    ensures var out := FetchedAll(env, files, rs);
            var idx := KeptPositions(env, files, rs);
            && IncreasingBelow(idx, |rs|)
            && |out| == |idx|
            && forall k :: 0 <= k < |idx| ==> out[k] == DataOf(env, rs[idx[k]])
  {
    KeptPositionsOrdered(env, files, rs);
    if |rs| > 0 {
      var init := rs[..|rs| - 1];
      FetchedFromKept(env, files, init);
      var prevOut := FetchedAll(env, files, init);
      var prev := KeptPositions(env, files, init);
      assert IncreasingBelow(prev, |init|);
      var out := FetchedAll(env, files, rs);
      var idx := KeptPositions(env, files, rs);
      assert (out == prevOut && idx == prev) || (out == prevOut + [DataOf(env, rs[|rs| - 1])] && idx == prev + [|rs| - 1]);
      forall k | 0 <= k < |idx| ensures out[k] == DataOf(env, rs[idx[k]]) {
        if k < |prev| {
          assert out[k] == prevOut[k] && idx[k] == prev[k];
          assert init[prev[k]] == rs[prev[k]];
        }
      }
    }
  }

  /** Downloads only add files: every file there before is there after. */
  lemma {:induction false} FilesOnlyGrow(env: AgentEnv, files: set<string>, rs: seq<ArxivResult>)
    ensures files <= FilesAfterAll(env, files, rs)
  {
    if |rs| > 0 {
      FilesOnlyGrow(env, files, rs[..|rs| - 1]);
    }
  }

  /** The paper dictionary as the ranker and the summarizer see it: no score yet. */
  function RecordOf(d: PaperData): (r: PaperRecord)
    ensures Complete(r) && r.noveltyScore.None?
    ensures r.metadata == Some(Extracted(d.metadata)) && r.imagePaths == Some(d.imagePaths)
  {
    PaperRecord(Some(Extracted(d.metadata)), Some(d.pdfPath), Some(d.fullText), Some(d.imagePaths), None)
  }
}
