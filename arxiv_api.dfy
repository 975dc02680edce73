/**
 * What both arXiv clients see of the `arxiv` library and of the disk: a
 * search result, the search itself as a function from the request to its
 * results (or the exception it raised), the PDF download as a success flag,
 * and the set of files already present.
 */
module ArxivApi {
  import opened Wrappers
  import opened Text

  /** The fields of an `arxiv.Result` the pipeline reads. Times are microseconds. */
  datatype ArxivResult = ArxivResult(
    entryId: string,
    title: string,
    authors: seq<string>,
    summary: string,
    published: int,
    updated: Option<int>,
    pdfUrl: Option<string>,
    primaryCategory: string,
    categories: seq<string>,
    doi: Option<string>,
    journalRef: Option<string>,
    comment: Option<string>)

  /** `arxiv.Search(query=..., max_results=...)`, or `arxiv.Search(id_list=[id])`. */
  datatype SearchRequest = ByQuery(query: string, maxResults: int) | ById(id: string)

  /** Running a search to the end: its results in order, or the exception's message. */
  type Search = SearchRequest -> Result<seq<ArxivResult>>

  /** Whether `result.download_pdf(...)` writes the file (true) or raises (false). */
  type Downloader = ArxivResult -> bool

  /** The files present on disk, as far as `download_pdf` checks and writes them. */
  class Disk {
    var files: set<string>

    constructor (files: set<string>)
      ensures this.files == files
    {
      this.files := files;
    }
  }

  /** `entry_id.split("/")[-1]`: the identifier at the end of the entry URL. */
  function PaperId(entryId: string): (id: string)
    ensures '/' !in id
    ensures |id| <= |entryId| && id == entryId[|entryId| - |id|..]
    ensures id == entryId || entryId[|entryId| - |id| - 1] == '/'
  {
    LastSegmentIsSuffix(entryId, '/');
    LastSegment(entryId, '/')
  }

  /** `download_dir / f"{paper_id}.pdf"`. */
  function PdfPath(downloadDir: string, r: ArxivResult): string {
    JoinPath(downloadDir, PaperId(r.entryId) + ".pdf")
  }

  /** The file's name, the path's last component, is the paper's id followed by ".pdf". */
  lemma PdfPathNamedAfterId(downloadDir: string, r: ArxivResult)
    ensures LastSegment(PdfPath(downloadDir, r), '/') == PaperId(r.entryId) + ".pdf"
  {
    var name := PaperId(r.entryId) + ".pdf";
    assert '/' !in name by {
      assert forall i :: 0 <= i < |name| ==> name[i] == if i < |PaperId(r.entryId)| then PaperId(r.entryId)[i] else ".pdf"[i - |PaperId(r.entryId)|];
    }
    JoinPathLastSegment(downloadDir, name);
  }

  /**
   * `download_pdf`: the same path whether or not the file was already there;
   * an existing file is not downloaded again, and a failed download raises
   * and leaves the disk as it was.
   */
  method DownloadPdf(disk: Disk, download: Downloader, r: ArxivResult, downloadDir: string)
    returns (out: Result<string>)
    modifies disk
    ensures out.Success? <==> PdfPath(downloadDir, r) in old(disk.files) || download(r)
    ensures out.Success? ==> out.value == PdfPath(downloadDir, r)
    ensures disk.files == if PdfPath(downloadDir, r) in old(disk.files) || !download(r) then old(disk.files)
                          else old(disk.files) + {PdfPath(downloadDir, r)}
    ensures out.Success? ==> PdfPath(downloadDir, r) in disk.files
  {
    var path := PdfPath(downloadDir, r);
    if path in disk.files {
      return Success(path);
    }
    if !download(r) {
      return Failure("download failed");
    }
    disk.files := disk.files + {path};
    return Success(path);
  }
}
