/**
 * `ImageExtractor.extract_images` (src/paper_review/utils/image.py and its
 * twin utils/image_extractor.py): walk the pages of a PDF in order, and on
 * each page its images in order, keeping those large enough, until
 * `max_images` are kept. Decoding, colour conversion and writing the file
 * are the outcome of each image entry.
 */
module Images {
  import opened Wrappers
  import opened Text

  datatype ImageSettings = ImageSettings(
    maxImages: int,
    imageFormat: string,
    imageQuality: int,
    minWidth: int,
    minHeight: int)

  /** `max_images_per_paper` 3, "png", quality 85, at least 300 by 300. */
  function DefaultImageSettings(): ImageSettings {
    ImageSettings(3, "png", 85, 300, 300)
  }

  /**
   * What happens to one entry of `page.get_images()`: extracting or opening
   * it raises (`Broken`), `extract_image` gives nothing (`Empty`), or it
   * decodes to a size, and `saves` says whether writing the file succeeds.
   */
  datatype ImageEntry = Broken | Empty | Sized(width: int, height: int, saves: bool)

  /** A page: its image entries, or a failure of `doc[page]` / `get_images()`. */
  datatype Page = PageImages(images: seq<ImageEntry>) | PageFailure

  /** Page `page`, entry `index`. */
  datatype ImageRef = ImageRef(page: nat, index: nat)

  /** An image that is saved and counted: decoded, at least the minimum size in both dimensions, written. */
  predicate Keeps(cfg: ImageSettings, e: ImageEntry) {
    e.Sized? && e.width >= cfg.minWidth && e.height >= cfg.minHeight && e.saves
  }

  predicate ComesBefore(a: ImageRef, b: ImageRef) {
    a.page < b.page || (a.page == b.page && a.index < b.index)
  }

  // ---------------------------------------------------------------------
  // Which images there are to keep, whatever the limit
  // ---------------------------------------------------------------------

  /** Every entry of page `page` from entry `j` on that would be kept, in entry order. */
  function PageRefs(cfg: ImageSettings, page: nat, images: seq<ImageEntry>, j: nat): seq<ImageRef>
    decreases |images| - j
  {
    if j >= |images| then []
    else (if Keeps(cfg, images[j]) then [ImageRef(page, j)] else []) + PageRefs(cfg, page, images, j + 1)
  }

  /** The references of a page are exactly its keepable entries from `j` on, in entry order. */
  lemma {:induction false} PageRefsMeaning(cfg: ImageSettings, page: nat, images: seq<ImageEntry>, j: nat)
    ensures var refs := PageRefs(cfg, page, images, j);
      && (forall k :: 0 <= k < |refs| ==> refs[k].page == page && j <= refs[k].index < |images|)
      && (forall x: nat :: ImageRef(page, x) in refs <==> j <= x < |images| && Keeps(cfg, images[x]))
      && (forall a, b :: 0 <= a < b < |refs| ==> refs[a].index < refs[b].index)
    decreases |images| - j
  {
    if j < |images| {
      PageRefsMeaning(cfg, page, images, j + 1);
    }
  }

  /** The first failing page at or after page `i`, if any. */
  function FirstFailure(pages: seq<Page>, i: nat): (f: Option<nat>)
    ensures f.Some? ==> i <= f.value < |pages| && pages[f.value].PageFailure?
    ensures forall x :: i <= x < |pages| && (f.None? || x < f.value) ==> pages[x].PageImages?
    decreases |pages| - i
  {
    if i >= |pages| then None
    else if pages[i].PageFailure? then Some(i)
    else FirstFailure(pages, i + 1)
  }

  /** Where the page loop would stop without a limit: at the first failing page, or after the last page. */
  function Stop(pages: seq<Page>, i: nat): (stop: nat)
    ensures stop <= |pages|
    ensures FirstFailure(pages, i).Some? ==> stop == FirstFailure(pages, i).value
    ensures FirstFailure(pages, i).None? ==> stop == |pages|
  {
    match FirstFailure(pages, i)
    case Some(f) => f
    case None => |pages|
  }

  /** Every image that would be kept on pages `i` up to `stop`, page by page. */
  function RefsOn(cfg: ImageSettings, pages: seq<Page>, i: nat, stop: nat): seq<ImageRef>
    requires stop <= |pages|
    decreases stop - i
  {
    if i >= stop then []
    else
      (match pages[i]
       case PageFailure => []
       case PageImages(images) => PageRefs(cfg, i, images, 0))
      + RefsOn(cfg, pages, i + 1, stop)
  }

  /** Taking `n` from a list that begins with `a` splits at `a` when `a` is shorter than `n`. */
  lemma TakeAppend<T>(a: seq<T>, b: seq<T>, n: int)
    requires n >= 0
    ensures |a| <= n ==> PyTake(a + b, n) == a + PyTake(b, n - |a|)
    ensures |a| >= n ==> PyTake(a + b, n) == PyTake(a, n)
  {
    if |a| <= n {
      assert (a + b)[..Min(n, |a| + |b|)] == a + b[..Min(n - |a|, |b|)];
    } else {
      assert (a + b)[..n] == a[..n];
    }
  }

  // ---------------------------------------------------------------------
  // The loop, as a function of where it stands
  // ---------------------------------------------------------------------

  /**
   * The images kept on page `page` from entry `j` on, when `count` are
   * already kept: the first of the page's keepable entries, as many as the
   * limit leaves room for.
   */
  function PageKept(cfg: ImageSettings, page: nat, images: seq<ImageEntry>, j: nat, count: nat): (r: seq<ImageRef>)
    ensures count + |r| <= Max(count, cfg.maxImages)
    ensures forall k :: 0 <= k < |r| ==> r[k].page == page && j <= r[k].index < |images| && Keeps(cfg, images[r[k].index])
    ensures forall a, b :: 0 <= a < b < |r| ==> r[a].index < r[b].index
    decreases |images| - j
  {
    if j >= |images| || count >= cfg.maxImages then []
    else if Keeps(cfg, images[j]) then [ImageRef(page, j)] + PageKept(cfg, page, images, j + 1, count + 1)
    else PageKept(cfg, page, images, j + 1, count)
  }

  /**
   * The images kept on page `page` from entry `j` on are the first of the
   * page's keepable entries, as many as the limit leaves room for.
   */
  lemma {:induction false} PageKeptIsPrefix(cfg: ImageSettings, page: nat, images: seq<ImageEntry>, j: nat, count: nat)
    ensures PageKept(cfg, page, images, j, count) == PyTake(PageRefs(cfg, page, images, j), Max(0, cfg.maxImages - count))
    decreases |images| - j
  {
    var refs := PageRefs(cfg, page, images, j);
    if j >= |images| {
      assert refs == [];
    } else if count >= cfg.maxImages {
      assert |PyTake(refs, 0)| == 0;
    } else {
      var lim := cfg.maxImages - count;
      var x := ImageRef(page, j);
      var later := PageRefs(cfg, page, images, j + 1);
      if Keeps(cfg, images[j]) {
        assert refs == [x] + later;
        PageKeptIsPrefix(cfg, page, images, j + 1, count + 1);
        assert PageKept(cfg, page, images, j + 1, count + 1) == PyTake(later, lim - 1);
        TakeAppend([x], later, lim);
      } else {
        assert refs == later;
        PageKeptIsPrefix(cfg, page, images, j + 1, count);
      }
    }
  }

  /**
   * The images kept from page `i` on, when `count` are already kept; None
   * when a failing page is reached before the limit.
   */
  function DocKept(cfg: ImageSettings, pages: seq<Page>, i: nat, count: nat): (r: Option<seq<ImageRef>>)
    ensures r.Some? ==> count + |r.value| <= Max(count, cfg.maxImages)
    ensures r.Some? ==> forall k :: 0 <= k < |r.value| ==>
      i <= r.value[k].page < |pages| && pages[r.value[k].page].PageImages?
      && r.value[k].index < |pages[r.value[k].page].images|
      && Keeps(cfg, pages[r.value[k].page].images[r.value[k].index])
    ensures r.Some? ==> forall a, b :: 0 <= a < b < |r.value| ==> ComesBefore(r.value[a], r.value[b])
    decreases |pages| - i
  {
    if i >= |pages| || count >= cfg.maxImages then Some([])
    else match pages[i]
      case PageFailure => None
      case PageImages(images) =>
        var here := PageKept(cfg, i, images, 0, count);
        match DocKept(cfg, pages, i + 1, count + |here|)
        case None => None
        case Some(rest) => Some(here + rest)
  }

  /** A page that does not fail puts its own keepable images before those of the later pages. */
  lemma DocRefsStep(cfg: ImageSettings, pages: seq<Page>, i: nat)
    requires i < |pages| && pages[i].PageImages?
    ensures FirstFailure(pages, i) == FirstFailure(pages, i + 1)
    ensures Stop(pages, i) == Stop(pages, i + 1) > i
    ensures RefsOn(cfg, pages, i, Stop(pages, i))
         == PageRefs(cfg, i, pages[i].images, 0) + RefsOn(cfg, pages, i + 1, Stop(pages, i + 1))
  {
  }

  /**
   * `DocKept` from page `i` with `count` kept is None exactly when a failing
   * page is reached before the limit; otherwise it is the first of the
   * keepable images before the first failing page, as many as the limit
   * leaves room for.
   */
  predicate DocKeptIsPrefix(cfg: ImageSettings, pages: seq<Page>, i: nat, count: nat) {
    var refs := RefsOn(cfg, pages, i, Stop(pages, i));
    var r := DocKept(cfg, pages, i, count);
    && (r.None? <==> FirstFailure(pages, i).Some? && |refs| < Max(0, cfg.maxImages - count))
    && (r.Some? ==> r.value == PyTake(refs, Max(0, cfg.maxImages - count)))
  }

  /** A page that does not fail, below the limit, keeps the prefix property of the pages after it. */
  lemma DocKeptPage(cfg: ImageSettings, pages: seq<Page>, i: nat, count: nat)
    requires i < |pages| && count < cfg.maxImages && pages[i].PageImages?
    requires DocKeptIsPrefix(cfg, pages, i + 1, count + |PageKept(cfg, i, pages[i].images, 0, count)|)
    ensures DocKeptIsPrefix(cfg, pages, i, count)
  {
    var lim := cfg.maxImages - count;
    var images := pages[i].images;
    var here := PageKept(cfg, i, images, 0, count);
    var mine := PageRefs(cfg, i, images, 0);
    var later := RefsOn(cfg, pages, i + 1, Stop(pages, i + 1));
    var rest := DocKept(cfg, pages, i + 1, count + |here|);
    PageKeptIsPrefix(cfg, i, images, 0, count);
    DocRefsStep(cfg, pages, i);
    TakeAppend(mine, later, lim);
    assert DocKept(cfg, pages, i, count) == if rest.None? then None else Some(here + rest.value);
    if |mine| < lim {
      assert here == mine;
    } else {
      assert |here| == lim && rest == Some([]);
    }
  }

  /** Past the last page, at the limit, or on a failing page, the prefix property holds outright. */
  lemma DocKeptStops(cfg: ImageSettings, pages: seq<Page>, i: nat, count: nat)
    requires i >= |pages| || count >= cfg.maxImages || pages[i].PageFailure?
    ensures DocKeptIsPrefix(cfg, pages, i, count)
  {
    var refs := RefsOn(cfg, pages, i, Stop(pages, i));
    if i >= |pages| {
      assert refs == [];
    } else if count >= cfg.maxImages {
      assert |PyTake(refs, 0)| == 0;
    } else {
      assert FirstFailure(pages, i) == Some(i) && refs == [];
    }
  }

  lemma {:induction false} DocKeptMeaning(cfg: ImageSettings, pages: seq<Page>, i: nat, count: nat)
    ensures DocKeptIsPrefix(cfg, pages, i, count)
    decreases |pages| - i
  {
    if i >= |pages| || count >= cfg.maxImages || pages[i].PageFailure? {
      DocKeptStops(cfg, pages, i, count);
    } else {
      DocKeptMeaning(cfg, pages, i + 1, count + |PageKept(cfg, i, pages[i].images, 0, count)|);
      DocKeptPage(cfg, pages, i, count);
    }
  }

  /** `"{paper_id}_img_{k}.{format}"` inside `output_dir`. */
  function ImagePath(cfg: ImageSettings, outputDir: string, paperId: string, k: nat): string {
    JoinPath(outputDir, paperId + "_img_" + NatToString(k) + "." + cfg.imageFormat)
  }

  /** The paths of the first `n` kept images: numbered 1, 2, ..., n. */
  function ImagePaths(cfg: ImageSettings, outputDir: string, paperId: string, n: nat): (r: seq<string>)
    ensures |r| == n
    ensures forall k :: 0 <= k < n ==> r[k] == ImagePath(cfg, outputDir, paperId, k + 1)
  {
    seq(n, k requires 0 <= k < n => ImagePath(cfg, outputDir, paperId, k + 1))
  }

  /**
   * What `extract_images` returns: nothing when the document cannot be
   * opened or a failing page is reached before the limit; otherwise one path
   * for each of the first `max_images` keepable images before the first
   * failing page.
   */
  function Extraction(cfg: ImageSettings, doc: Result<seq<Page>>, outputDir: string, paperId: string): (paths: seq<string>)
    ensures doc.Failure? ==> paths == []
    ensures doc.Success? ==> var pages := doc.value;
      var refs := RefsOn(cfg, pages, 0, Stop(pages, 0));
      if FirstFailure(pages, 0).Some? && |refs| < Max(0, cfg.maxImages) then paths == []
      else |paths| == Min(|refs|, Max(0, cfg.maxImages))
    ensures |paths| <= Max(0, cfg.maxImages)
    ensures forall k :: 0 <= k < |paths| ==> paths[k] == ImagePath(cfg, outputDir, paperId, k + 1)
  {
    match doc
    case Failure(_) => []
    case Success(pages) =>
      DocKeptMeaning(cfg, pages, 0, 0);
      match DocKept(cfg, pages, 0, 0)
      case None => []
      case Some(kept) => ImagePaths(cfg, outputDir, paperId, |kept|)
  }

  /** The number kept, past the images already counted, if no failing page is reached. */
  function Count(o: Option<seq<ImageRef>>): int {
    if o.Some? then |o.value| else -1
  }

  /** The inner loop over one page's entries, starting with `count0` kept images and their paths. */
  method ScanPage(cfg: ImageSettings, page: nat, images: seq<ImageEntry>, outputDir: string, paperId: string,
                  count0: nat, paths0: seq<string>)
    returns (count: nat, paths: seq<string>)
    requires paths0 == ImagePaths(cfg, outputDir, paperId, count0) && count0 <= Max(0, cfg.maxImages)
    ensures count == count0 + |PageKept(cfg, page, images, 0, count0)|
    ensures paths == ImagePaths(cfg, outputDir, paperId, count) && count <= Max(0, cfg.maxImages)
  {
    count, paths := count0, paths0;
    var imgIndex := 0;
    while imgIndex < |images|
      invariant 0 <= imgIndex <= |images|
      invariant paths == ImagePaths(cfg, outputDir, paperId, count) && count <= Max(0, cfg.maxImages)
      invariant count0 + |PageKept(cfg, page, images, 0, count0)| == count + |PageKept(cfg, page, images, imgIndex, count)|
    {
      if count >= cfg.maxImages {
        break;
      }
      if Keeps(cfg, images[imgIndex]) {
        paths := paths + [ImagePath(cfg, outputDir, paperId, count + 1)];
        count := count + 1;
      }
      imgIndex := imgIndex + 1;
    }
  }

  /**
   * The nested loop: pages in order while fewer than `max_images` are kept,
   * then the page's entries in order under the same bound; a kept image is
   * named after the count so far, plus one.
   */
  method ExtractImages(cfg: ImageSettings, doc: Result<seq<Page>>, outputDir: string, paperId: string)
    returns (paths: seq<string>)
    ensures paths == Extraction(cfg, doc, outputDir, paperId)
    ensures |paths| <= Max(0, cfg.maxImages)
  {
    if doc.Failure? {
      return [];
    }
    var pages := doc.value;
    paths := [];
    var imageCount: nat := 0;
    var pageNum := 0;
    while pageNum < |pages|
      invariant 0 <= pageNum <= |pages|
      invariant paths == ImagePaths(cfg, outputDir, paperId, imageCount) && imageCount <= Max(0, cfg.maxImages)
      invariant Count(DocKept(cfg, pages, 0, 0)) ==
        if DocKept(cfg, pages, pageNum, imageCount).Some? then imageCount + Count(DocKept(cfg, pages, pageNum, imageCount)) else -1
    {
      if imageCount >= cfg.maxImages {
        break;
      }
      if pages[pageNum].PageFailure? {
        return [];
      }
      imageCount, paths := ScanPage(cfg, pageNum, pages[pageNum].images, outputDir, paperId, imageCount, paths);
      pageNum := pageNum + 1;
    }
    assert DocKept(cfg, pages, pageNum, imageCount) == Some([]);
  }
}
