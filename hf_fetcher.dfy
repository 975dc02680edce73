/**
 * `HuggingFaceFetcher` of src/paper_review/agents/fetcher/huggingface.py:
 * read the daily-papers listing, turn each entry into a `Paper`, keep those
 * passing the date, upvote and keyword filters, and cut the list to
 * `hf_max_papers`. The HTTP request is a function from the requested limit
 * to the decoded listing, or the error it raised.
 */
module HfFetcher {
  import opened Wrappers
  import opened Text
  import opened Papers
  import opened Filters

  /** A field of a JSON object: missing, present as `null`, or present with a value. */
  datatype Json<T> = Absent | Null | Given(value: T)

  /**
   * The `paper` object of a listing entry. `authors` holds each author
   * object's `name` field; `publishedAt` holds the parsed timestamp, or None
   * when the text is not an ISO date.
   */
  datatype HfPaperInfo = HfPaperInfo(
    authors: Json<seq<Json<string>>>,
    publishedAt: Json<Option<int>>,
    aiKeywords: Json<seq<string>>,
    title: Json<string>,
    summary: Json<string>,
    id: Json<string>,
    upvotes: Json<int>,
    githubRepo: Json<string>,
    githubStars: Json<int>,
    projectPage: Json<string>)

  /** One entry of the listing; `paper` is None when it is missing or null. */
  datatype HfEntry = HfEntry(paper: Option<HfPaperInfo>, numComments: Json<int>, thumbnail: Json<string>)

  /** `GET /api/daily_papers?limit=n`, decoded: the entries, or the error raised. */
  type DailyPapersApi = int -> Result<seq<HfEntry>>

  // ---------------------------------------------------------------------
  // _parse_paper
  // ---------------------------------------------------------------------

  /** `author.get("name", "Unknown")`; a null name is Python's None, which validation later rejects. */
  function AuthorName(name: Json<string>): (r: Option<string>)
    ensures name.Absent? ==> r == Some("Unknown")
    ensures name.Null? ==> r.None?
    ensures name.Given? ==> r == Some(name.value)
  {
    match name
    case Absent => Some("Unknown")
    case Null => None
    case Given(s) => Some(s)
  }

  /** `[author.get("name", "Unknown") for author in authors]`. */
  function AuthorNames(authors: seq<Json<string>>): (names: seq<Option<string>>)
    ensures |names| == |authors|
    ensures forall i :: 0 <= i < |authors| ==> names[i] == AuthorName(authors[i])
  {
    seq(|authors|, i requires 0 <= i < |authors| => AuthorName(authors[i]))
  }

  /** The author loop: one entry per author object, in order. */
  method CollectAuthors(authors: seq<Json<string>>) returns (names: seq<Option<string>>)
    ensures names == AuthorNames(authors)
  {
    names := [];
    var i := 0;
    while i < |authors|
      invariant 0 <= i <= |authors|
      invariant |names| == i
      invariant forall k :: 0 <= k < i ==> names[k] == AuthorName(authors[k])
    {
      names := names + [AuthorName(authors[i])];
      i := i + 1;
    }
    assert forall k :: 0 <= k < |names| ==> names[k] == AuthorNames(authors)[k];
  }

  /** `authors: List[str]` validation: every name must be a string. */
  function ValidNames(names: seq<Option<string>>): (r: Option<seq<string>>)
    ensures r.Some? <==> forall i :: 0 <= i < |names| ==> names[i].Some?
    ensures r.Some? ==> |r.value| == |names| && forall i :: 0 <= i < |names| ==> r.value[i] == names[i].value
  {
    if |names| == 0 then Some([])
    else
      var rest := ValidNames(names[1..]);
      if names[0].Some? && rest.Some? then Some([names[0].value] + rest.value) else None
  }

  /** The author list of a `paper` object, if it validates. */
  function AuthorList(info: HfPaperInfo): Option<seq<string>> {
    match info.authors
    case Absent => Some([])
    case Null => None
    case Given(authors) => ValidNames(AuthorNames(authors))
  }

  /** `.get(key, default)` for a required field: the default when missing, a failure when null. */
  function Required<T>(field: Json<T>, default: T): Option<T> {
    match field
    case Absent => Some(default)
    case Null => None
    case Given(v) => Some(v)
  }

  /** `.get(key)` for an optional field. */
  function Optional<T>(field: Json<T>): Option<T> {
    if field.Given? then Some(field.value) else None
  }

  /**
   * A field read with `.get(key, default)` holds `v`: the default when the
   * key is missing, the given value otherwise; a null never validates.
   */
  predicate ReadAs<T(==)>(field: Json<T>, default: T, v: T) {
    match field
    case Absent => v == default
    case Null => false
    case Given(x) => v == x
  }

  /**
   * `_parse_paper` returns a paper: there is a `paper` object, its
   * `publishedAt` is an ISO date, every author name is a string, and none of
   * the fields the metadata requires is null.
   */
  predicate Parses(e: HfEntry) {
    && e.paper.Some?
    && var info := e.paper.value;
       && info.publishedAt.Given? && info.publishedAt.value.Some?
       && !info.authors.Null?
       && (info.authors.Given? ==> forall i :: 0 <= i < |info.authors.value| ==> !info.authors.value[i].Null?)
       && !info.aiKeywords.Null? && !info.title.Null? && !info.summary.Null?
       && !info.upvotes.Null? && !e.numComments.Null? && !info.githubStars.Null?
  }

  /**
   * The metadata `_parse_paper` builds, or None when it raises. Every field
   * is read from the entry with its default; the keywords are the
   * categories and the tags, the first of them is the primary category, and
   * the source is "huggingface".
   */
  function ParsedMetadata(e: HfEntry): (r: Option<PaperMetadata>)
    ensures r.Some? <==> Parses(e)
    ensures r.Some? ==> var info := e.paper.value;
      && r.value.source == HuggingFace
      && r.value.published == info.publishedAt.value.value
      && ReadAs(info.title, "", r.value.title) && ReadAs(info.summary, "", r.value.summary)
      && ReadAs(info.aiKeywords, [], r.value.tags) && r.value.categories == r.value.tags
      && r.value.primaryCategory == (if r.value.tags == [] then "unknown" else r.value.tags[0])
      && ReadAs(info.upvotes, 0, r.value.upvotes) && ReadAs(e.numComments, 0, r.value.numComments)
      && ReadAs(info.githubStars, 0, r.value.githubStars)
      && (info.authors.Absent? ==> r.value.authors == [])
      && (info.authors.Given? ==>
            && |r.value.authors| == |info.authors.value|
            && forall i :: 0 <= i < |info.authors.value| ==> Some(r.value.authors[i]) == AuthorName(info.authors.value[i]))
      && r.value.arxivId == Optional(info.id) && r.value.thumbnail == Optional(e.thumbnail)
      && r.value.githubRepo == Optional(info.githubRepo) && r.value.projectPage == Optional(info.projectPage)
      && r.value.updated.None? && r.value.pdfUrl.None? && r.value.doi.None?
      && r.value.journalRef.None? && r.value.comment.None?
  {
    if e.paper.None? then None
    else
      var info := e.paper.value;
      var authors := AuthorList(info);
      var keywords := Required(info.aiKeywords, []);
      var title := Required(info.title, "");
      var summary := Required(info.summary, "");
      var upvotes := Required(info.upvotes, 0);
      var numComments := Required(e.numComments, 0);
      var stars := Required(info.githubStars, 0);
      if authors.None? || !info.publishedAt.Given? || info.publishedAt.value.None? || keywords.None?
         || title.None? || summary.None? || upvotes.None? || numComments.None? || stars.None? then None
      else
        var ks := keywords.value;
        Some(PaperMetadata(
          title.value, authors.value, summary.value, info.publishedAt.value.value, None, Optional(info.id),
          if ks != [] then ks[0] else "unknown", ks, None, None, None, None,
          upvotes.value, numComments.value, Optional(info.githubRepo), stars.value,
          Optional(info.projectPage), Optional(e.thumbnail), HuggingFace, ks))
  }

  /** `_parse_paper`: a fresh `Paper` holding the parsed metadata, or None. */
  method ParsePaper(e: HfEntry) returns (paper: Option<Paper>)
    ensures paper.Some? <==> ParsedMetadata(e).Some?
    ensures paper.Some? ==> fresh(paper.value) && paper.value.metadata == ParsedMetadata(e).value
    ensures paper.Some? ==> Unprocessed(paper.value)
  {
    if e.paper.None? {
      return None;
    }
    var info := e.paper.value;
    var authors: seq<Option<string>> := [];
    if info.authors.Null? {
      return None;
    } else if info.authors.Given? {
      authors := CollectAuthors(info.authors.value);
    }
    var names := ValidNames(authors);
    assert names == AuthorList(info);
    var metadata := ParsedMetadata(e);
    if metadata.None? {
      return None;
    }
    var p := new Paper(metadata.value);
    return Some(p);
  }

  // ---------------------------------------------------------------------
  // _apply_filters and fetch_daily_papers
  // ---------------------------------------------------------------------

  /** `_apply_filters`: inside the inclusive window, at least the upvote floor when there is one, and the AND/OR keyword test. */
  function ApplyFilters(f: FilterConfig, now: int, m: PaperMetadata): (ok: bool)
    ensures ok <==>
      && DateRange(f, now).start <= m.published <= DateRange(f, now).end
      && (f.hfMinUpvotes > 0 ==> m.upvotes >= f.hfMinUpvotes)
      && (|| f.hfKeywords == []
          || (f.hfFilterMode == And && forall k :: k in f.hfKeywords ==> k in m.tags)
          || (f.hfFilterMode == Or && exists k :: k in f.hfKeywords && k in m.tags))
  {
    TagFilterMeaning(f.hfKeywords, m.tags, f.hfFilterMode);
    && InWindow(DateRange(f, now), m.published)
    && (f.hfMinUpvotes <= 0 || m.upvotes >= f.hfMinUpvotes)
    && TagFilterPasses(f.hfKeywords, m.tags, f.hfFilterMode)
  }

  function Keep(f: FilterConfig, now: int): PaperMetadata -> bool {
    m => ApplyFilters(f, now, m)
  }

  /** The metadata of the entries that parse, in listing order. */
  function ParsedAll(es: seq<HfEntry>): (ms: seq<PaperMetadata>)
    ensures |ms| <= |es|
  {
    if |es| == 0 then []
    else
      var last := ParsedMetadata(es[|es| - 1]);
      ParsedAll(es[..|es| - 1]) + (if last.Some? then [last.value] else [])
  }

  /** Every parsed record comes from an entry that parses. */
  lemma {:induction false} ParsedAllFromEntries(es: seq<HfEntry>)
    ensures forall m :: m in ParsedAll(es) ==> exists e :: e in es && ParsedMetadata(e) == Some(m)
  {
    if |es| > 0 {
      ParsedAllFromEntries(es[..|es| - 1]);
      forall m | m in ParsedAll(es) ensures exists e :: e in es && ParsedMetadata(e) == Some(m) {
        if m in ParsedAll(es[..|es| - 1]) {
          var e :| e in es[..|es| - 1] && ParsedMetadata(e) == Some(m);
          assert e in es;
        } else {
          assert es[|es| - 1] in es;
        }
      }
    }
  }

  /**
   * What `fetch_daily_papers` returns: nothing unless Hugging Face is
   * selected or when the request fails, else the parsed entries that pass
   * the filters, in order, cut to `hf_max_papers`.
   */
  function DailyMetadata(api: DailyPapersApi, f: FilterConfig, now: int): (ms: seq<PaperMetadata>)
    ensures HuggingFace !in f.sources ==> ms == []
    ensures api(f.hfMaxPapers).Failure? ==> ms == []
    ensures f.hfMaxPapers >= 0 ==> |ms| <= f.hfMaxPapers
    ensures forall i :: 0 <= i < |ms| ==> ms[i].source == HuggingFace && ApplyFilters(f, now, ms[i])
  {
    if HuggingFace !in f.sources then []
    else match api(f.hfMaxPapers)
      case Failure(_) => []
      case Success(entries) =>
        var parsed := ParsedAll(entries);
        var kept := Filter(parsed, Keep(f, now));
        FilterMembers(parsed, Keep(f, now));
        ParsedAllFromEntries(entries);
        var ms := PyTake(kept, f.hfMaxPapers);
        assert forall i :: 0 <= i < |ms| ==> ms[i] == kept[i] && kept[i] in parsed && Keep(f, now)(kept[i]);
        ms
  }

  /** One pass of the loop of `fetch_daily_papers`: the parsed paper, if any, appended when it passes the filters. */
  method KeepParsed(all: seq<Paper>, paper: Option<Paper>, keep: PaperMetadata -> bool, ghost seen: seq<PaperMetadata>)
    returns (next: seq<Paper>)
    requires Metadatas(all) == Filter(seen, keep)
    requires Distinct(all) && forall k :: 0 <= k < |all| ==> Unprocessed(all[k])
    requires paper.Some? ==> paper.value !in all && Unprocessed(paper.value)
    ensures Metadatas(next) == Filter(seen + (if paper.Some? then [paper.value.metadata] else []), keep)
    ensures Distinct(next) && forall k :: 0 <= k < |next| ==> Unprocessed(next[k])
    ensures forall p :: p in next ==> p in all || paper == Some(p)
  {
    next := all;
    if paper.Some? {
      FilterSnoc(seen, paper.value.metadata, keep);
      if keep(paper.value.metadata) {
        MetadatasSnoc(all, paper.value);
        next := all + [paper.value];
      }
    } else {
      assert seen + [] == seen;
    }
  }

  /** The loop of `fetch_daily_papers`: parse each entry and keep it when it passes the filters. */
  method ParseAndFilter(entries: seq<HfEntry>, f: FilterConfig, now: int) returns (all: seq<Paper>)
    ensures Metadatas(all) == Filter(ParsedAll(entries), Keep(f, now))
    ensures forall p :: p in all ==> fresh(p)
    ensures forall k :: 0 <= k < |all| ==> Unprocessed(all[k])
    ensures Distinct(all)
  {
    all := [];
    var i := 0;
    while i < |entries|
      invariant 0 <= i <= |entries|
      invariant Metadatas(all) == Filter(ParsedAll(entries[..i]), Keep(f, now))
      invariant forall p :: p in all ==> fresh(p)
      invariant forall k :: 0 <= k < |all| ==> Unprocessed(all[k])
      invariant Distinct(all)
    {
      TakeSnoc(entries, i);
      assert entries[..i + 1][..i] == entries[..i];
      var paper := ParsePaper(entries[i]);
      assert ParsedAll(entries[..i + 1]) == ParsedAll(entries[..i]) + (if paper.Some? then [paper.value.metadata] else []);
      all := KeepParsed(all, paper, Keep(f, now), ParsedAll(entries[..i]));
      i := i + 1;
    }
    assert entries[..i] == entries;
  }

  /**
   * `fetch_daily_papers`: a fresh `Paper` for each listed entry that parses
   * and passes the filters, in listing order, at most `hf_max_papers` of
   * them; a failed request gives [] and raises nothing.
   */
  method FetchDailyPapers(api: DailyPapersApi, f: FilterConfig, now: int) returns (papers: seq<Paper>)
    ensures Metadatas(papers) == DailyMetadata(api, f, now)
    ensures forall p :: p in papers ==> fresh(p)
    ensures forall k :: 0 <= k < |papers| ==> Unprocessed(papers[k])
    ensures Distinct(papers)
  {
    if HuggingFace !in f.sources {
      return [];
    }
    var response := api(f.hfMaxPapers);
    if response.Failure? {
      return [];
    }
    var all := ParseAndFilter(response.value, f, now);
    papers := PyTake(all, f.hfMaxPapers);
    assert forall k :: 0 <= k < |papers| ==> papers[k] == all[k];
    assert forall p :: p in papers ==> p in all;
    assert Metadatas(papers) == Metadatas(all)[..|papers|];
  }
}
