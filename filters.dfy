/**
 * `FilterConfig` (src/paper_review/models/filters.py): the user's selection of
 * sources, date window, per-source tag filters and ranking options, its
 * validation, the resolution of the date window, and the AND/OR tag
 * predicate both source adapters apply.
 */
module Filters {
  import opened Wrappers
  import opened Papers

  /** One day in the model's time unit (microseconds). */
  const MicrosPerDay: int := 86_400_000_000

  /** The `Literal["AND", "OR"]` filter mode. */
  datatype FilterMode = And | Or

  function ParseMode(name: string): (r: Option<FilterMode>)
    ensures r.Some? <==> name == "AND" || name == "OR"
    ensures r == Some(And) <==> name == "AND"
  {
    if name == "AND" then Some(And) else if name == "OR" then Some(Or) else None
  }

  /** A validated filter configuration. Dates are day numbers, counted from the epoch's day 0. */
  datatype FilterConfig = FilterConfig(
    sources: seq<Source>,
    dateFrom: Option<int>,
    dateTo: Option<int>,
    daysBack: int,
    arxivCategories: seq<string>,
    arxivFilterMode: FilterMode,
    hfKeywords: seq<string>,
    hfFilterMode: FilterMode,
    hfMinUpvotes: int,
    hfMaxPapers: int,
    noveltyEnabled: bool,
    noveltyTopN: int,
    noveltyMinScore: Option<real>)

  /** The field constraints every `FilterConfig` satisfies once constructed. */
  predicate Valid(c: FilterConfig) {
    && |c.sources| > 0
    && c.daysBack >= 1
    && c.hfMinUpvotes >= 0
    && 1 <= c.hfMaxPapers <= 100
    && c.noveltyTopN >= 1
    && (c.noveltyMinScore.Some? ==> 1.0 <= c.noveltyMinScore.value <= 10.0)
  }

  /** The keyword arguments handed to `FilterConfig(...)`, before validation. */
  datatype FilterFields = FilterFields(
    sources: seq<string>,
    dateFrom: Option<int>,
    dateTo: Option<int>,
    daysBack: int,
    arxivCategories: seq<string>,
    arxivFilterMode: string,
    hfKeywords: seq<string>,
    hfFilterMode: string,
    hfMinUpvotes: int,
    hfMaxPapers: int,
    noveltyEnabled: bool,
    noveltyTopN: int,
    noveltyMinScore: Option<real>)

  /** The declared default of every field. */
  function DefaultFields(): FilterFields {
    FilterFields(["arxiv", "huggingface"], None, None, 1, [], "OR", [], "OR", 0, 50, true, 10, None)
  }

  /** The `Literal` check on each element of `sources`. */
  function ParseSources(names: seq<string>): (r: Option<seq<Source>>)
    ensures r.Some? <==> forall i :: 0 <= i < |names| ==> ParseSource(names[i]).Some?
    ensures r.Some? ==> |r.value| == |names|
    ensures r.Some? ==> forall i :: 0 <= i < |names| ==> SourceName(r.value[i]) == names[i]
  {
    if |names| == 0 then Some([])
    else
      var head := ParseSource(names[0]);
      var rest := ParseSources(names[1..]);
      if head.Some? && rest.Some? then Some([head.value] + rest.value) else None
  }

  /** `validate_sources`: an empty source list is refused. */
  function ValidateSources(v: seq<Source>): (r: Result<seq<Source>>)
    ensures r.Success? <==> |v| > 0
    ensures r.Success? ==> r.value == v
  {
    if |v| == 0 then Failure("at least one source must be selected") else Success(v)
  }

  /** Pydantic's construction of a `FilterConfig`: every type and range check, then `validate_sources`. */
  function Validate(f: FilterFields): (r: Result<FilterConfig>)
    ensures r.Success? ==> Valid(r.value)
    ensures r.Success? <==>
      && ParseSources(f.sources).Some? && |f.sources| > 0
      && ParseMode(f.arxivFilterMode).Some? && ParseMode(f.hfFilterMode).Some?
      && f.daysBack >= 1 && f.hfMinUpvotes >= 0 && 1 <= f.hfMaxPapers <= 100 && f.noveltyTopN >= 1
      && (f.noveltyMinScore.Some? ==> 1.0 <= f.noveltyMinScore.value <= 10.0)
    ensures r.Success? ==>
      && |r.value.sources| == |f.sources|
      && (forall i :: 0 <= i < |f.sources| ==> SourceName(r.value.sources[i]) == f.sources[i])
      && r.value.dateFrom == f.dateFrom && r.value.dateTo == f.dateTo && r.value.daysBack == f.daysBack
      && r.value.arxivCategories == f.arxivCategories && r.value.hfKeywords == f.hfKeywords
      && Some(r.value.arxivFilterMode) == ParseMode(f.arxivFilterMode)
      && Some(r.value.hfFilterMode) == ParseMode(f.hfFilterMode)
      && r.value.hfMinUpvotes == f.hfMinUpvotes && r.value.hfMaxPapers == f.hfMaxPapers
      && r.value.noveltyEnabled == f.noveltyEnabled && r.value.noveltyTopN == f.noveltyTopN
      && r.value.noveltyMinScore == f.noveltyMinScore
  {
    match (ParseSources(f.sources), ParseMode(f.arxivFilterMode), ParseMode(f.hfFilterMode))
    case (None, _, _) => Failure("sources: input should be 'arxiv' or 'huggingface'")
    case (_, None, _) => Failure("arxiv_filter_mode: input should be 'AND' or 'OR'")
    case (_, _, None) => Failure("hf_filter_mode: input should be 'AND' or 'OR'")
    case (Some(sources), Some(arxivMode), Some(hfMode)) =>
      if f.daysBack < 1 then Failure("days_back: input should be greater than or equal to 1")
      else if f.hfMinUpvotes < 0 then Failure("hf_min_upvotes: input should be greater than or equal to 0")
      else if f.hfMaxPapers < 1 || f.hfMaxPapers > 100 then Failure("hf_max_papers: input should be between 1 and 100")
      else if f.noveltyTopN < 1 then Failure("novelty_top_n: input should be greater than or equal to 1")
      else if f.noveltyMinScore.Some? && !(1.0 <= f.noveltyMinScore.value <= 10.0) then
        Failure("novelty_min_score: input should be between 1.0 and 10.0")
      else
        match ValidateSources(sources)
        case Failure(e) => Failure(e)
        case Success(v) =>
          Success(FilterConfig(v, f.dateFrom, f.dateTo, f.daysBack, f.arxivCategories, arxivMode,
                               f.hfKeywords, hfMode, f.hfMinUpvotes, f.hfMaxPapers, f.noveltyEnabled,
                               f.noveltyTopN, f.noveltyMinScore))
  }

  /** The defaults form a valid configuration: both sources, the last day, OR modes, no floors. */
  lemma DefaultsAreValid()
    ensures var r := Validate(DefaultFields());
            && r.Success?
            && r.value.sources == [Arxiv, HuggingFace]
            && r.value.dateFrom.None? && r.value.dateTo.None? && r.value.daysBack == 1
            && r.value.arxivCategories == [] && r.value.arxivFilterMode == Or
            && r.value.hfKeywords == [] && r.value.hfFilterMode == Or
            && r.value.hfMinUpvotes == 0 && r.value.hfMaxPapers == 50
            && r.value.noveltyEnabled && r.value.noveltyTopN == 10 && r.value.noveltyMinScore.None?
  {
    var names: seq<string> := ["arxiv", "huggingface"];
    var tail: seq<string> := ["huggingface"];
    assert names[1..] == tail;
    assert tail[1..] == [];
    assert ParseSource(tail[0]) == Some(HuggingFace);
    assert ParseSources(tail[1..]) == Some([]);
    assert [ParseSource(tail[0]).value] + ParseSources(tail[1..]).value == [HuggingFace];
    assert ParseSources(tail) == Some([HuggingFace]);
    assert ParseSource(names[0]) == Some(Arxiv);
    assert [ParseSource(names[0]).value] + ParseSources(names[1..]).value == [Arxiv, HuggingFace];
    assert ParseSources(names) == Some([Arxiv, HuggingFace]);
  }

  /** Whatever else is given, an empty source list is a validation error. */
  lemma EmptySourcesRejected(f: FilterFields)
    requires f.sources == []
    ensures Validate(f).Failure?
  {
  }

  // ---------------------------------------------------------------------
  // get_date_range
  // ---------------------------------------------------------------------

  datatype Window = Window(start: int, end: int)

  /** `get_date_range` at the instant `now`: each bound is resolved on its own. */
  function DateRange(c: FilterConfig, now: int): (w: Window)
    ensures c.dateFrom.Some? ==> w.start / MicrosPerDay == c.dateFrom.value && w.start % MicrosPerDay == 0
    ensures c.dateFrom.None? ==> w.start == now - c.daysBack * MicrosPerDay
    ensures c.dateTo.Some? ==> w.end / MicrosPerDay == c.dateTo.value && w.end % MicrosPerDay == MicrosPerDay - 1
    ensures c.dateTo.None? ==> w.end == now
  {
    var start := if c.dateFrom.Some? then c.dateFrom.value * MicrosPerDay else now - c.daysBack * MicrosPerDay;
    var end := if c.dateTo.Some? then c.dateTo.value * MicrosPerDay + (MicrosPerDay - 1) else now;
    Window(start, end)
  }

  /** The inclusive window test both adapters apply to `published`. */
  predicate InWindow(w: Window, t: int) {
    w.start <= t <= w.end
  }

  /**
   * A Python `datetime` as far as `<=` sees it: its instant, and whether it
   * carries a UTC offset. `datetime.combine(d, time)` and `datetime.now()`
   * are naive; the arXiv client's `published`, and a Hugging Face
   * `publishedAt` ending in "Z", are aware.
   */
  datatype Stamp = Stamp(micros: int, aware: bool)

  const NaiveAwareMessage: string := "can't compare offset-naive and offset-aware datetimes"

  /** `a <= b` on datetimes: a `TypeError` when exactly one side is aware. */
  function StampLe(a: Stamp, b: Stamp): (r: Result<bool>)
    ensures r.Failure? <==> a.aware != b.aware
    ensures r.Success? ==> (r.value <==> a.micros <= b.micros)
  {
    if a.aware != b.aware then Failure(NaiveAwareMessage) else Success(a.micros <= b.micros)
  }

  /**
   * `date_from <= published <= date_to` as the adapters write it, with the
   * naive bounds of `get_date_range`: the chain stops at the first false
   * comparison.
   */
  function InWindowAsWritten(c: FilterConfig, now: int, published: Stamp): Result<bool> {
    var w := DateRange(c, now);
    match StampLe(Stamp(w.start, false), published)
    case Failure(e) => Failure(e)
    case Success(lower) =>
      if !lower then Success(false) else StampLe(published, Stamp(w.end, false))
  }

  /**
   * The window test as written raises a `TypeError` on every aware
   * `published`, where the intended test decides membership of the instant;
   * on a naive one the two agree.
   */
  lemma AwarePublishedRaises(c: FilterConfig, now: int, published: Stamp)
    ensures published.aware ==> InWindowAsWritten(c, now, published) == Failure(NaiveAwareMessage)
    ensures !published.aware ==> InWindowAsWritten(c, now, published) == Success(InWindow(DateRange(c, now), published.micros))
  {
  }

  /** With both dates given, the window holds exactly the instants of the days from `date_from` to `date_to`. */
  lemma ExplicitWindowIsWholeDays(c: FilterConfig, now: int, t: int)
    requires c.dateFrom.Some? && c.dateTo.Some?
    ensures InWindow(DateRange(c, now), t) <==> c.dateFrom.value <= t / MicrosPerDay <= c.dateTo.value
  {
    var w := DateRange(c, now);
    var d := t / MicrosPerDay;
    assert t == d * MicrosPerDay + t % MicrosPerDay;
    assert 0 <= t % MicrosPerDay < MicrosPerDay;
    if c.dateFrom.value <= d {
      assert w.start <= d * MicrosPerDay;
    } else {
      assert (d + 1) * MicrosPerDay <= w.start;
    }
    if d <= c.dateTo.value {
      assert d * MicrosPerDay + (MicrosPerDay - 1) <= w.end;
    } else {
      assert w.end < d * MicrosPerDay;
    }
  }

  /** With neither date given, the window is the last `days_back` days and is never empty. */
  lemma DefaultWindowNonEmpty(c: FilterConfig, now: int)
    requires Valid(c) && c.dateFrom.None? && c.dateTo.None?
    ensures var w := DateRange(c, now);
            w.start < w.end && w.end - w.start == c.daysBack * MicrosPerDay
            && InWindow(w, now)
  {
  }

  /** The code does not order the two dates: a `date_from` after `date_to` gives a window nothing falls in. */
  lemma ReversedDatesGiveEmptyWindow(c: FilterConfig, now: int, t: int)
    requires c.dateFrom.Some? && c.dateTo.Some? && c.dateFrom.value > c.dateTo.value
    ensures !InWindow(DateRange(c, now), t)
  {
  }

  // ---------------------------------------------------------------------
  // The AND/OR tag predicate of both source adapters
  // ---------------------------------------------------------------------

  /**
   * The category / keyword filter: with an empty filter list everything
   * passes; otherwise AND asks `set(filter) <= set(tags)` and OR asks that
   * the two sets meet.
   */
  predicate TagFilterPasses(filter: seq<string>, tags: seq<string>, mode: FilterMode)
  {
    var wanted := set x | x in filter;
    var have := set x | x in tags;
    |filter| == 0 || (if mode == And then wanted <= have else wanted * have != {})
  }

  /** The set formulation, read element by element. */
  lemma TagFilterMeaning(filter: seq<string>, tags: seq<string>, mode: FilterMode)
    ensures TagFilterPasses(filter, tags, mode) <==>
      || filter == []
      || (mode == And && forall x :: x in filter ==> x in tags)
      || (mode == Or && exists x :: x in filter && x in tags)
  {
    var wanted := set x | x in filter;
    var have := set x | x in tags;
    assert (wanted <= have) <==> forall x :: x in filter ==> x in tags by {
      if wanted <= have {
        forall x | x in filter ensures x in tags {
          assert x in wanted;
        }
      }
    }
    assert (wanted * have != {}) <==> exists x :: x in filter && x in tags by {
      if exists x :: x in filter && x in tags {
        var x :| x in filter && x in tags;
        assert x in wanted * have;
      }
    }
  }

  /** Under AND, every wanted tag is present, so the paper also passes under OR. */
  lemma AndImpliesOr(filter: seq<string>, tags: seq<string>)
    requires TagFilterPasses(filter, tags, And)
    ensures TagFilterPasses(filter, tags, Or)
  {
    TagFilterMeaning(filter, tags, And);
    TagFilterMeaning(filter, tags, Or);
    if filter != [] {
      assert filter[0] in filter;
    }
  }

  /** A paper with more tags never fails a filter it passed. */
  lemma TagFilterMonotone(filter: seq<string>, tags: seq<string>, more: seq<string>, mode: FilterMode)
    requires TagFilterPasses(filter, tags, mode)
    requires forall x :: x in tags ==> x in more
    ensures TagFilterPasses(filter, more, mode)
  {
    TagFilterMeaning(filter, tags, mode);
    TagFilterMeaning(filter, more, mode);
  }
}
