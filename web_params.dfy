/**
 * The request parameters of `list_papers` and `fetch_papers` in
 * src/paper_review/web/app.py: three comma-separated lists and the other
 * fields, turned into a `FilterConfig` with every other field at its
 * default.
 */
module WebParams {
  import opened Wrappers
  import opened Text
  import opened Papers
  import opened Filters

  /** The query (or form) parameters both handlers take. */
  datatype WebQuery = WebQuery(
    sources: string,
    arxivCategories: string,
    arxivFilterMode: string,
    hfKeywords: string,
    hfFilterMode: string,
    daysBack: int)

  /**
   * The defaults of `list_papers`; `fetch_papers` has the same ones except
   * that `sources` is required. The sources default is the text
   * "arxiv,huggingface", written as its two names and the comma.
   */
  const DefaultQuery: WebQuery := WebQuery("arxiv" + "," + "huggingface", "", "OR", "", "OR", 1)

  /** Each piece stripped, in order. */
  function StripAll(parts: seq<string>): (r: seq<string>)
    ensures |r| == |parts| && forall i :: 0 <= i < |parts| ==> r[i] == Strip(parts[i])
  {
    seq(|parts|, i requires 0 <= i < |parts| => Strip(parts[i]))
  }

  function NonEmpty(): string -> bool {
    (x: string) => x != ""
  }

  /** A list item as the parser produces it: non-empty, free of commas, and with nothing to strip. */
  predicate CleanItem(x: string) {
    x != "" && ',' !in x && Strip(x) == x
  }

  /** `[x.strip() for x in s.split(",") if x.strip()]`. */
  function ParseCommaList(s: string): (items: seq<string>)
    ensures forall i :: 0 <= i < |items| ==> CleanItem(items[i])
  {
    var parts := SplitChar(s, ',');
    var stripped := StripAll(parts);
    var items := Filter(stripped, NonEmpty());
    FilterMembers(stripped, NonEmpty());
    forall i | 0 <= i < |items| ensures CleanItem(items[i]) {
      var j :| 0 <= j < |stripped| && stripped[j] == items[i];
      StripKeepsChars(parts[j], ',');
      StripIdempotent(parts[j]);
    }
    items
  }

  /**
   * The `FilterConfig(...)` of both handlers: accepted exactly when the
   * parsed sources are a non-empty list of source names, both modes are
   * "AND" or "OR" and `days_back` is at least 1; then it holds the parsed
   * lists and the given fields, every other field at its default.
   */
  function BuildFilterConfig(q: WebQuery): (r: Result<FilterConfig>)
    ensures ParseCommaList(q.sources) == [] ==> r.Failure?
    ensures var names := ParseCommaList(q.sources);
      r.Success? <==>
        && names != [] && (forall i :: 0 <= i < |names| ==> ParseSource(names[i]).Some?)
        && ParseMode(q.arxivFilterMode).Some? && ParseMode(q.hfFilterMode).Some? && q.daysBack >= 1
    ensures var names := ParseCommaList(q.sources);
      r.Success? ==>
        && |r.value.sources| == |names| && (forall i :: 0 <= i < |names| ==> SourceName(r.value.sources[i]) == names[i])
        && Some(r.value.arxivFilterMode) == ParseMode(q.arxivFilterMode)
        && Some(r.value.hfFilterMode) == ParseMode(q.hfFilterMode)
    ensures r.Success? ==>
      && r.value.dateFrom.None? && r.value.dateTo.None? && r.value.daysBack == q.daysBack
      && r.value.arxivCategories == ParseCommaList(q.arxivCategories)
      && r.value.hfKeywords == ParseCommaList(q.hfKeywords)
      && r.value.hfMinUpvotes == 0 && r.value.hfMaxPapers == 50
      && r.value.noveltyEnabled && r.value.noveltyTopN == 10 && r.value.noveltyMinScore.None?
  {
    Validate(DefaultFields().(
      sources := ParseCommaList(q.sources),
      daysBack := q.daysBack,
      arxivCategories := ParseCommaList(q.arxivCategories),
      arxivFilterMode := q.arxivFilterMode,
      hfKeywords := ParseCommaList(q.hfKeywords),
      hfFilterMode := q.hfFilterMode))
  }

  // ---------------------------------------------------------------------
  // What the parsing promises
  // ---------------------------------------------------------------------

  /** A list of clean items, joined with commas, parses back to itself; the empty text gives the empty list. */
  lemma ParseJoin(items: seq<string>)
    requires forall i :: 0 <= i < |items| ==> CleanItem(items[i])
    ensures ParseCommaList(Join(items, ",")) == items
  {
    assert "," == [','];
    if |items| == 0 {
      assert SplitChar("", ',') == [""];
      assert StripAll([""]) == [""];
      assert Filter([""], NonEmpty()) == [];
    } else {
      SplitJoinChar(items, ',');
      assert StripAll(items) == items;
      FilterAll(items, NonEmpty());
    }
  }

  /** Parsing is idempotent: the parsed list, joined again, parses to itself. */
  lemma ParseIdempotent(s: string)
    ensures ParseCommaList(Join(ParseCommaList(s), ",")) == ParseCommaList(s)
  {
    ParseJoin(ParseCommaList(s));
  }

  /** The pieces of a split hold only characters of the text. */
  lemma {:induction false} SplitChars(s: string, c: char, x: char)
    requires x !in s
    ensures forall i :: 0 <= i < |SplitChar(s, c)| ==> x !in SplitChar(s, c)[i]
  {
    if |s| > 0 {
      SplitChars(s[1..], c, x);
    }
  }

  /** A sources parameter of commas and whitespace only is refused by the validation, as an empty list. */
  lemma BlankSourcesRejected(q: WebQuery)
    requires forall k :: 0 <= k < |q.sources| ==> q.sources[k] == ',' || IsWhitespace(q.sources[k])
    ensures ParseCommaList(q.sources) == []
    ensures BuildFilterConfig(q).Failure?
  {
    var parts := SplitChar(q.sources, ',');
    forall i | 0 <= i < |parts| ensures !NonEmpty()(StripAll(parts)[i]) {
      forall k | 0 <= k < |parts[i]| ensures IsWhitespace(parts[i][k]) {
        var x := parts[i][k];
        if !IsWhitespace(x) {
          assert x != ',';
          SplitChars(q.sources, ',', x);
        }
      }
    }
    FilterNone(StripAll(parts), NonEmpty());
  }

  /** A non-empty word of lower-case letters is a clean item. */
  lemma LowerWordClean(x: string)
    requires x != [] && forall k :: 0 <= k < |x| ==> 'a' <= x[k] <= 'z'
    ensures CleanItem(x)
  {
    StripIdle(x);
  }

  /** Two clean items joined by a comma parse to the pair. */
  lemma ParsePair(a: string, b: string)
    requires CleanItem(a) && CleanItem(b)
    ensures ParseCommaList(a + "," + b) == [a, b]
  {
    var items := [a, b];
    assert items[1..] == [b];
    assert Join(items, ",") == a + "," + b;
    ParseJoin(items);
  }

  /** Two lower-case words joined by a comma parse to the pair. */
  lemma ParseLowerPair(a: string, b: string)
    requires a != [] && forall k :: 0 <= k < |a| ==> 'a' <= a[k] <= 'z'
    requires b != [] && forall k :: 0 <= k < |b| ==> 'a' <= b[k] <= 'z'
    ensures ParseCommaList(a + "," + b) == [a, b]
  {
    LowerWordClean(a);
    LowerWordClean(b);
    ParsePair(a, b);
  }

  /** The default sources parameter names both sources. */
  lemma DefaultSourcesParse()
    ensures ParseCommaList(DefaultQuery.sources) == ["arxiv", "huggingface"]
  {
    ParseLowerPair("arxiv", "huggingface");
  }

  /** With every parameter at its default, the handlers build the default configuration. */
  lemma DefaultQueryGivesDefaults()
    ensures BuildFilterConfig(DefaultQuery) == Validate(DefaultFields())
    ensures BuildFilterConfig(DefaultQuery).Success?
  {
    DefaultSourcesParse();
    ParseJoin([]);
    assert Join([], ",") == "";
    DefaultsAreValid();
  }
}
