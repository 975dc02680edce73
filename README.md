# Paper review pipeline, modelled in Dafny

This project models the core of a paper-review pipeline. The pipeline collects recent papers from arXiv and from the Hugging Face daily-papers listing, filters them, and ranks the arXiv papers by an LLM-judged novelty score. It then optionally downloads their PDFs and extracts text and figures, summarizes every selected paper with an LLM, and reports how many papers came from each source. Around that pipeline it also models:

- the two configuration loaders (dot-separated key lookup in a YAML document);
- the Agent Lightning event tracker;
- the comma-list parameter parsing of the web front end;
- the older, dictionary-based agents under `agents/` and `utils/`, which do the same jobs on plain records.

One Dafny module stands for each source file:

| module | source |
|---|---|
| `Papers`, `Summaries`, `Filters` | the pydantic models: `Paper` is a class, since its PDF path, text, images and novelty score are filled in place. The filter configuration's validation and date window are here too |
| `ArxivApi`, `ArxivClient`, `LegacyArxivClient` | the two arXiv clients: query building, the category fallback and metadata conversion. `ArxivApi.DownloadPdf` models the idempotent `download_pdf` of both clients |
| `ArxivFetcher`, `HfFetcher` | the two source adapters of the new pipeline, with their filters and the in-place `process_paper` loop |
| `FetchAgent` | the older dictionary-based fetcher agent |
| `Images` | image extraction, shared by `src/paper_review/utils/image.py` and its near-identical twin `utils/image_extractor.py` |
| `Scoring`, `Ranker`, `DictRanker`, `StableSort` | novelty scoring: fence stripping of the model's reply, the mean of three sub-scores with 5.0 defaults, and the neutral score on failure. Ranking in its two variants rests on a stable descending sort that models Python's `sorted(..., reverse=True)` |
| `Summarizer`, `DictSummarizer` | the prompt, paper ids, and summaries or marked errors |
| `Pipeline` | `PaperReviewPipeline.run` and its five stages |
| `Config`, `LegacyConfig` | the two configuration loaders |
| `LightningTracker` | the event tracker, as a class that appends events |
| `WebParams` | the request-parameter parsing |
| `Wrappers`, `Text`, `Llm`, `Records` | shared helpers: `Option`/`Result`, string splitting, joining and stripping, the LLM and JSON-decoder interfaces, and the dictionary records |

The model makes these choices:

- Time is integer microseconds, and calendar dates are day numbers.
- The current time is a parameter.
- The LLM, HTTP, arXiv search and PDF libraries are function values.
- The files on disk form a set of paths held by a `Disk` object.
- Scores are reals.

## Model

| member | source | states |
|---|---|---|
| Config.OrEmpty | src/paper_review/core/config.py:37 | an empty or false YAML document is replaced by the empty mapping; any other document is kept, so the stored configuration is never None |
| Config.SectionOf | src/paper_review/core/config.py:71-81 | a section lookup succeeds exactly when the configuration is a mapping, and gives the stored section, or the empty mapping when the section is absent |
| Config.ConfigLoader.constructor | src/paper_review/core/config.py:13-22 | a new loader records its path and holds the loaded document, or the empty mapping when the file is missing or unreadable |
| Config.ConfigLoader.Load | src/paper_review/core/config.py:24-44 | a missing or unreadable file returns the empty mapping and leaves the held configuration unchanged; a parsed file replaces it (empty documents becoming the empty mapping) and is returned |
| Config.ConfigLoader.Reload | src/paper_review/core/config.py:83-90 | reloading behaves exactly as loading |
| Config.ConfigLoader.Get | src/paper_review/core/config.py:46-69 | the answer is the dotted-path lookup of the key in the held configuration, with the default for a missing key, a non-mapping on the way or a None value |
| Config.ConfigLoader.GetSection | src/paper_review/core/config.py:71-81 | the section read from the held configuration, failing when it is not a mapping |
| Config.StoredValueFound | src/paper_review/core/config.py:57-69 | a key without dots that is stored with a non-None value is returned as stored |
| Config.AbsentGivesDefault | src/paper_review/core/config.py:57-69 | a key without dots that is absent, stored as None, or looked up in a non-mapping gives the default |
| Config.WalkAppend | src/paper_review/core/config.py:57-69 | walking a path of keys is walking its first part and then the rest from where it ended |
| Config.DottedIsNested | src/paper_review/core/config.py:46-81 | looking up "section.key" is looking up "key" inside the section |
| Config.SectionKeepsNone | src/paper_review/core/config.py:46-81 | a section stored as None reads as the default through the dotted lookup, but get_section returns the None itself |
| LegacyConfig.LoadConfig | utils/config_loader.py:27-35 | loading succeeds exactly when the file exists and parses, and then yields the parsed document unchanged (None included) |
| LegacyConfig.LegacyConfigLoader.constructor | utils/config_loader.py:12-25 | a loader built from a loaded document records its path and holds that document |
| LegacyConfig.LegacyConfigLoader.Reload | utils/config_loader.py:71-73 | reloading fails exactly when the file is missing or unreadable, leaving the configuration unchanged; otherwise the configuration is the parsed document |
| LegacyConfig.LegacyConfigLoader.Get | utils/config_loader.py:37-57 | the answer is the legacy dotted-path lookup, which stops with the default only at a missing key or a non-mapping |
| LegacyConfig.LegacyConfigLoader.GetSection | utils/config_loader.py:59-69 | the section read from the held configuration; an empty document (None) has no sections and the call fails |
| LegacyConfig.Open | utils/config_loader.py:12-35 | opening a loader succeeds exactly when the file parses, and the new loader holds the parsed document |
| LegacyConfig.NullHasNoKeys | utils/config_loader.py:48-57 | no non-empty key path is found in a None document |
| LegacyConfig.GetVariants | utils/config_loader.py:37-57 | the newer loader's lookup equals the legacy lookup except that a None result is replaced by the default |
| LegacyConfig.LegacyKeepsNone | utils/config_loader.py:37-57 | a key stored as None reads as None through the legacy loader but as the default through the newer one |
| LightningTracker.Tracker.constructor | utils/agent_lightning_tracker.py:21-43 | every missing setting takes its default (disabled, "data/lightning_store", all three kinds tracked) and the event log starts empty |
| LightningTracker.Tracker.EmitPrompt | utils/agent_lightning_tracker.py:45-73 | when disabled or prompts are not tracked, nothing is logged and the id is empty; otherwise one prompt event named "agent_position" is appended and its id returned |
| LightningTracker.Tracker.EmitResponse | utils/agent_lightning_tracker.py:75-97 | when responses are tracked, exactly one response event named after its parent is appended; otherwise the log is unchanged |
| LightningTracker.Tracker.EmitReward | utils/agent_lightning_tracker.py:99-121 | when rewards are tracked, exactly one reward event named after its parent is appended; otherwise the log is unchanged |
| LightningTracker.Tracker.EmitToolCall | utils/agent_lightning_tracker.py:123-156 | gated by the enabled flag alone; appends one tool-call event named "agent_tool_position" whose result is cut to 500 characters |
| LightningTracker.Tracker.SessionDump | utils/agent_lightning_tracker.py:158-172 | there is no dump exactly when tracking is disabled or the log is empty; otherwise the dump holds the whole log, its length, the first event's time and the save time |
| LightningTracker.Tracker.SaveSession | utils/agent_lightning_tracker.py:158-174 | the only file written is the session file, and only when there is a dump |
| LightningTracker.Tracker.GetSummary | utils/agent_lightning_tracker.py:176-194 | the total is the number of events, and each type's count is the number of events of that type, with an entry only for types that occur |
| LightningTracker.TypeCountsMeaning | utils/agent_lightning_tracker.py:183-186 | the counting loop's map gives, for each type, its number of occurrences in the log, and has keys only for occurring types |
| LightningTracker.CountsAddUp | utils/agent_lightning_tracker.py:183-192 | the four per-type counts add up to the total, and no other type appears |
| LightningTracker.PositionInId | utils/agent_lightning_tracker.py:45-156 | a prompt or tool-call id ends with "_" followed by the position of its event |
| LightningTracker.IdsUnique | utils/agent_lightning_tracker.py:45-156 | no two prompt or tool-call events of one log share an id, whatever the agent names are |
| Papers.ParseSource | src/paper_review/models/paper.py:36 | the source literal accepts exactly "arxiv" and "huggingface", and the accepted value prints back as the same name |
| Papers.NewMetadata | src/paper_review/models/paper.py:9-40 | metadata built from the required fields has every optional field None, every count 0 and empty category and tag lists |
| Papers.Paper.constructor | src/paper_review/models/paper.py:68-77 | a new paper holds its metadata and has no PDF path, no text, no images and no score |
| Summaries.NewPaperSummary | src/paper_review/models/summary.py:10-16 | a summary built without images has an empty image list |
| Summaries.NewSummaryReport | src/paper_review/models/summary.py:36-43 | a report built without per-source counts has both counts 0 |
| Filters.ParseMode | src/paper_review/models/filters.py:29-39 | the mode literal accepts exactly "AND" and "OR" |
| Filters.ParseSources | src/paper_review/models/filters.py:13-16 | the source list is accepted exactly when every element is a valid source name, and is kept element by element |
| Filters.ValidateSources | src/paper_review/models/filters.py:50-56 | the validator refuses exactly the empty source list and otherwise returns it unchanged |
| Filters.Validate | src/paper_review/models/filters.py:9-56 | construction succeeds exactly when every literal parses and every range constraint holds (days_back >= 1, hf_min_upvotes >= 0, hf_max_papers in 1..100, novelty_top_n >= 1, novelty_min_score in 1.0..10.0 when given, sources non-empty), and then carries every field over unchanged |
| Filters.DefaultsAreValid | src/paper_review/models/filters.py:13-48 | the declared defaults validate to both sources, the last day, OR modes, 50 HF papers and novelty ranking of the top 10 with no floor |
| Filters.EmptySourcesRejected | src/paper_review/models/filters.py:50-56 | an empty source list fails validation whatever the other fields are |
| Filters.DateRange | src/paper_review/models/filters.py:58-70 | a given date_from starts at that day's midnight, otherwise the window starts days_back days before now; a given date_to ends at that day's last instant, otherwise at now |
| Filters.ExplicitWindowIsWholeDays | src/paper_review/models/filters.py:58-70 | with both dates given, an instant is in the window exactly when its day lies between them |
| Filters.DefaultWindowNonEmpty | src/paper_review/models/filters.py:58-70 | with no dates given, the window is exactly days_back days long, ends at now and is never empty |
| Filters.ReversedDatesGiveEmptyWindow | src/paper_review/models/filters.py:58-70 | a date_from after date_to is not rejected, and nothing falls in the resulting window |
| Filters.StampLe | src/paper_review/agents/fetcher/arxiv.py:146 | comparing two datetimes raises exactly when one is timezone-aware and the other naive; otherwise it orders their instants |
| Filters.AwarePublishedRaises | src/paper_review/agents/fetcher/arxiv.py:145-146 | with the naive bounds of get_date_range, the window test as written raises a TypeError on every aware published date, and agrees with the intended window test on a naive one |
| Filters.TagFilterMeaning | src/paper_review/agents/fetcher/arxiv.py:149-161 | the set test passes exactly when the filter is empty, or under AND every filter tag is present, or under OR some filter tag is present |
| Filters.AndImpliesOr | src/paper_review/agents/fetcher/arxiv.py:149-161 | a paper that passes a tag filter in AND mode also passes it in OR mode |
| Filters.TagFilterMonotone | src/paper_review/agents/fetcher/arxiv.py:149-161 | adding tags to a paper never makes it fail a filter it passed |
| ArxivFetcher.ApplyFilters | src/paper_review/agents/fetcher/arxiv.py:133-163 | a paper passes exactly when its publication instant is inside the inclusive date window and the category filter is empty, or AND finds every filter category among the paper's, or OR finds one |
| ArxivFetcher.CategoryArgument | src/paper_review/agents/fetcher/arxiv.py:60-62 | the client is asked for all categories (None) exactly when the filter's category list is empty, else for that list |
| ArxivFetcher.MetadataOnly | src/paper_review/agents/fetcher/arxiv.py:41-78 | nothing is fetched unless arXiv is a selected source; every kept metadata is an arXiv paper, passes the filters and comes from the client's results |
| ArxivFetcher.FetchMetadataOnly | src/paper_review/agents/fetcher/arxiv.py:41-78 | returns distinct, freshly built, unprocessed papers whose metadata are the filtered client results in client order |
| ArxivFetcher.Target | src/paper_review/agents/fetcher/arxiv.py:92-111 | a download target exists only for a paper with a non-empty id and PDF URL, and is the first hit of the search by id |
| ArxivFetcher.DownloadedMeaning | src/paper_review/agents/fetcher/arxiv.py:92-113 | a PDF path is assigned exactly when the paper has an id and a URL, the search finds it and the file is on disk or downloads; the path's file is named after the hit's id |
| ArxivFetcher.ProcessPaper | src/paper_review/agents/fetcher/arxiv.py:80-131 | returns the same object; the disk gains only the downloaded PDF; the paper's path, text and images are set from the PDF when there is one, and nothing changes otherwise; the score is untouched |
| ArxivFetcher.ProcessedAt | src/paper_review/agents/fetcher/arxiv.py:182 | each paper of a batch is processed on the disk the papers before it left |
| ArxivFetcher.ProcessAll | src/paper_review/agents/fetcher/arxiv.py:182 | processing a list in turn returns the same list, leaves the disk as the papers' downloads in order left it, and gives each paper the content of processing it on that disk |
| ArxivFetcher.Execute | src/paper_review/agents/fetcher/arxiv.py:165-184 | the papers are the metadata-only papers; without process_pdfs they stay blank and the disk is unchanged, with it they are processed in order |
| ArxivFetcher.ProcessingAgainFindsPdf | src/paper_review/agents/fetcher/arxiv.py:100-113 | processing a paper a second time finds its PDF on disk, assigns the same path and writes nothing more |
| ArxivFetcher.DiskAfterAdds | src/paper_review/agents/fetcher/arxiv.py:100-113 | a file that processing one paper adds is the PDF path assigned to it |
| ArxivFetcher.FilesAfterGrows | src/paper_review/agents/fetcher/arxiv.py:182 | processing a batch never removes a file |
| ArxivFetcher.FilesAfterAddsOnlyDownloads | src/paper_review/agents/fetcher/arxiv.py:182 | every file a batch adds is the PDF assigned to some paper of the batch |
| ArxivApi.PaperId | src/paper_review/utils/arxiv.py:116 | the paper id is the part of the entry URL after its last "/": a slash-free suffix, preceded by a slash unless it is the whole URL |
| ArxivApi.PdfPathNamedAfterId | src/paper_review/utils/arxiv.py:115-118 | the PDF file's name is the paper id followed by ".pdf" |
| ArxivApi.DownloadPdf | src/paper_review/utils/arxiv.py:102-131 | succeeds exactly when the file is already present or the download writes it, always with the same path; an existing file is not fetched again and a failed download leaves the disk as it was |
| ArxivClient.ChosenCategories | src/paper_review/utils/arxiv.py:47 | the categories searched are the argument when non-empty, else the configured list when non-empty, else the single configured category; never empty |
| ArxivClient.ChosenMax | src/paper_review/utils/arxiv.py:48 | an absent or zero count falls back to the configured maximum |
| ArxivClient.CatTerms | src/paper_review/utils/arxiv.py:55 | one "cat:" term per category, in order |
| ArxivClient.PrimaryQuery | src/paper_review/utils/arxiv.py:53-57 | both branches build the same query: the category terms joined by " OR ", which is a single term for one category |
| ArxivClient.FallbackKept | src/paper_review/utils/arxiv.py:89-92 | the fallback keeps a prefix of the results sharing a category, in search order, at most max_res of them |
| ArxivClient.FetchRecentPapers | src/paper_review/utils/arxiv.py:34-100 | the primary search's results when it succeeds; otherwise the fallback search with twice the count, filtered and cut; nothing when both raise |
| ArxivClient.FallbackBounded | src/paper_review/utils/arxiv.py:73-100 | when the primary search raises, every result returned shares a searched category and there are at most max_res of them |
| ArxivClient.ToPaperMetadata | src/paper_review/utils/arxiv.py:133-158 | the metadata copies the result's fields, takes the id from the entry URL, sets tags to the categories and source to arXiv, and leaves the Hugging Face fields at their defaults |
| ArxivClient.PdfNamedAfterId | src/paper_review/utils/arxiv.py:102-158 | the stored PDF is named after the arxiv_id the metadata carries |
| LegacyArxivClient.FetchRecentPapers | utils/arxiv_client.py:32-86 | the primary search's results when it succeeds; otherwise the results of the bare-category search that list the category, in order, exactly min(max_results, kept) of them; nothing when both raise |
| LegacyArxivClient.Day | utils/arxiv_client.py:134 | the day kept of an instant is the one containing it |
| LegacyArxivClient.ExtractMetadata | utils/arxiv_client.py:120-143 | the record copies the result's fields, takes a slash-free id from the entry URL, keeps the publication day and an update day exactly when the result has one |
| FetchAgent.DataOf | agents/fetcher.py:59-84 | the dictionary built for a result holds its extracted metadata, the PDF path named after its id, the PDF's text and at most max_images image paths named after the id and numbered from 1 |
| FetchAgent.FetchPapers | agents/fetcher.py:43-96 | the dictionaries are those of the results whose PDF was on disk or downloaded, in order, with the disk threaded through the downloads; a failing result is skipped |
| FetchAgent.KeptPositionsOrdered | agents/fetcher.py:57-92 | the kept results are positions of the input, in increasing order |
| FetchAgent.KeptPositionsMeaning | agents/fetcher.py:57-92 | a result is kept exactly when its download does not fail on the disk its predecessors left |
| FetchAgent.FetchedFromKept | agents/fetcher.py:57-96 | the output is an order-preserving subsequence: its k-th dictionary is the one built for the k-th kept result |
| FetchAgent.FilesOnlyGrow | agents/fetcher.py:57-92 | fetching never removes a file from disk |
| FetchAgent.RecordOf | agents/fetcher.py:79-84 | the dictionary handed on has every key the ranker and the summarizer read, and no score yet |
| Images.PageKept | src/paper_review/utils/image.py:59-105 | on one page the kept images are entries of that page large enough and saved, in entry order, never taking the count past max_images |
| Images.PageRefsMeaning | src/paper_review/utils/image.py:59-103 | an entry of the page is among the page's keepable references exactly when it is large enough and saves; they are listed in entry order |
| Images.PageKeptIsPrefix | src/paper_review/utils/image.py:59-105 | on one page the kept images are exactly the first max_images - count keepable entries: none keepable is skipped |
| Images.DocKept | src/paper_review/utils/image.py:52-105 | across the document the kept images come in page-then-entry order, are each large enough and saved, and never exceed max_images |
| Images.FirstFailure | src/paper_review/utils/image.py:56-57 | the first page from a given one on whose image list cannot be read; every page before it lists its images |
| Images.DocKeptPage | src/paper_review/utils/image.py:52-105 | a page that lists its images, reached below the limit, passes the prefix property of the pages after it on to itself |
| Images.DocKeptMeaning | src/paper_review/utils/image.py:47-121 | the scan yields nothing exactly when a failing page is reached before max_images keepable images were found before it; otherwise it keeps exactly the first max_images keepable images before the first failing page, in page-then-entry order |
| Images.ImagePaths | src/paper_review/utils/image.py:76-77 | the k-th kept image is written as "{paper_id}_img_{k}.{format}" in the output directory, numbered from 1 |
| Images.Extraction | src/paper_review/utils/image.py:30-121 | nothing when the document cannot be opened or a failing page is reached below the limit; otherwise one path for each of the first max_images keepable images before the first failing page, the k-th named after the paper id and k |
| Images.ScanPage | src/paper_review/utils/image.py:59-111 | the inner loop adds exactly the images this page keeps and their consecutively numbered paths |
| Images.ExtractImages | src/paper_review/utils/image.py:30-121 | the nested page and entry loops return exactly the paths of the kept images, at most max_images of them |
| HfFetcher.AuthorName | src/paper_review/agents/fetcher/huggingface.py:88 | a missing author name becomes "Unknown"; a null one is kept as None and later fails validation |
| HfFetcher.AuthorNames | src/paper_review/agents/fetcher/huggingface.py:86-89 | one name per author object, in order |
| HfFetcher.CollectAuthors | src/paper_review/agents/fetcher/huggingface.py:86-89 | the author loop yields exactly one name per author object, in order |
| HfFetcher.ValidNames | src/paper_review/agents/fetcher/huggingface.py:98-100 | the author list validates exactly when every name is a string, and is kept element by element |
| HfFetcher.ParsedMetadata | src/paper_review/agents/fetcher/huggingface.py:72-120 | a record is parsed exactly when the entry has a paper object and a valid publishedAt, no null title, summary, keyword list, author list, author entry or count; then title, summary, keywords (as tags and categories), upvotes, comments and stars are the given values or their defaults, the first keyword (or "unknown") is the primary category, each author is the given name or "Unknown", the arXiv id, thumbnail, GitHub and project links are copied, and updated, pdf URL, DOI, journal and comment are absent |
| HfFetcher.ParsePaper | src/paper_review/agents/fetcher/huggingface.py:72-120 | returns a fresh, unprocessed paper exactly when the entry parses, holding the parsed metadata |
| HfFetcher.ApplyFilters | src/paper_review/agents/fetcher/huggingface.py:122-157 | a paper passes exactly when it is inside the inclusive window, meets the upvote floor when the floor is positive, and passes the AND/OR keyword test (an empty keyword list passes everything) |
| HfFetcher.ParsedAllFromEntries | src/paper_review/agents/fetcher/huggingface.py:54-56 | every parsed record comes from a listed entry that parses; entries that fail are skipped |
| HfFetcher.DailyMetadata | src/paper_review/agents/fetcher/huggingface.py:27-70 | nothing unless Hugging Face is selected or when the request fails; otherwise at most hf_max_papers records, each a Hugging Face paper passing the filters |
| HfFetcher.ParseAndFilter | src/paper_review/agents/fetcher/huggingface.py:53-57 | the loop keeps, in listing order, distinct fresh papers whose metadata are exactly the parsed entries that pass the filters |
| HfFetcher.FetchDailyPapers | src/paper_review/agents/fetcher/huggingface.py:27-70 | the papers are fresh, unprocessed and distinct, and their metadata are the listing's parsed, filtered entries cut to hf_max_papers |
| Scoring.JsonFenceBody | src/paper_review/agents/ranker.py:140-141 | the body of a "```json" fence is the start of the text after the first "```json", up to the next "```" or the end, and holds no "```" |
| Scoring.CutAtShorter | src/paper_review/agents/ranker.py:140-141 | cutting at the first "```json" and then at the first "```" is cutting at the first "```" |
| Scoring.PlainFenceBody | src/paper_review/agents/ranker.py:142-143 | the body of a plain fence is the text between the first and the second "```", and holds no "```" |
| Scoring.StripFence | src/paper_review/agents/ranker.py:139-143 | the parsed text is the "```json" body when there is one, else the plain fence body when there is a "```", else the reply unchanged; a fence body is trimmed of every character Python's str.isspace accepts |
| Scoring.JsonFenceIsFence | src/paper_review/agents/ranker.py:140-143 | a reply containing "```json" also contains "```", so the json branch is the only one taken for it |
| Scoring.SubScore | src/paper_review/agents/ranker.py:148-150 | a missing criterion counts as 5.0, a numeric one as its value, a boolean as 1.0 or 0.0 (a Python bool is an int), and any other value makes the sum raise |
| Scoring.CriteriaOf | src/paper_review/agents/ranker.py:147-158 | reading the criteria fails exactly when one of the three is present but not a number |
| Scoring.CriteriaIgnores | src/paper_review/agents/ranker.py:147-158 | changing any key other than the four read leaves the criteria unchanged |
| Scoring.SuppliedTotalIgnored | src/paper_review/agents/ranker.py:147-158 | a total_score supplied by the model does not change the result |
| Scoring.NeutralScore | src/paper_review/agents/ranker.py:160-169 | the neutral score has 5.0 for every criterion and a total that is their mean |
| Scoring.ScorePaper | src/paper_review/agents/ranker.py:96-169 | the total is always the mean of the three criteria, on success and on every failure |
| Scoring.ScoreFromGoodReply | src/paper_review/agents/ranker.py:145-158 | a reply decoding to an object with numeric or missing criteria yields those criteria (5.0 for a missing one) and its reasoning ("" when missing) |
| Scoring.ScoreFailureIsNeutral | src/paper_review/agents/ranker.py:160-169 | a failing call, reply, decoding or reasoning gives 5.0 everywhere and reasoning starting with "Error: " |
| Scoring.NeutralRecord | utils/novelty_ranker.py:183-192 | the neutral dictionary has 5.0 for every criterion and a total that is their mean |
| Scoring.ScoreRecordOf | utils/novelty_ranker.py:139-192 | the dictionary variant's total is always the mean of its three criteria |
| Scoring.VariantsAgree | utils/novelty_ranker.py:156-181 | for a reply without surrounding whitespace and with a string reasoning, both variants give the same score |
| Ranker.Limit | src/paper_review/agents/ranker.py:55 | an absent or zero top_n falls back to the configured count |
| Ranker.Scored | src/paper_review/agents/ranker.py:81 | the scored papers are exactly the input papers that have a score, in input order |
| Ranker.RankPapers | src/paper_review/agents/ranker.py:40-94 | disabled, or with no more papers than n, the input is returned and nothing is scored; otherwise every arXiv paper gets its score in place (cut papers included), others keep theirs, and the result is the first n scored papers by descending total; content fields never change and the result is drawn from the input without repeats |
| Ranker.Execute | src/paper_review/agents/ranker.py:171-185 | with novelty_enabled off the papers pass through unscored; otherwise rank_papers with top_n = novelty_top_n |
| Ranker.ScoredReadsScores | src/paper_review/agents/ranker.py:81-87 | when no paper's score changes, the scored list and its sort keys are what they were, whatever else about the papers changed |
| Ranker.RankedFromScored | src/paper_review/agents/ranker.py:81-87 | every ranked paper is a scored input paper, ranked no more often than it is scored |
| Ranker.RankedLength | src/paper_review/agents/ranker.py:82-87 | for a non-negative n the result has min(n, number scored) papers |
| Ranker.RankedOrder | src/paper_review/agents/ranker.py:82-87 | along the result totals never increase, and equal totals keep their input order |
| Ranker.RankedIsTop | src/paper_review/agents/ranker.py:82-87 | no scored paper left out has a higher total than any paper kept |
| Ranker.ScoredFromInput | src/paper_review/agents/ranker.py:81 | the scored list is drawn from the input, each paper no more often than it occurs |
| Ranker.RankedDistinct | src/paper_review/agents/ranker.py:81-87 | ranking distinct papers gives distinct papers |
| DictRanker.ScoreOf | utils/novelty_ranker.py:104-192 | scoring raises exactly when the metadata, its title or its summary is missing; otherwise the total is the mean of the criteria |
| DictRanker.ScoredCopy | utils/novelty_ranker.py:65-84 | a successful pass yields a copy of the record that differs only by its new novelty_score; the pass raises exactly when scoring raised and the handler cannot read metadata or arxiv_id |
| DictRanker.RankPapers | utils/novelty_ranker.py:43-102 | disabled, or with no more records than top_papers_count, the input comes back; otherwise the result is the stable descending ranking of the scored copies cut to top_papers_count, or the first exception that escapes the scoring loop, or the KeyError the log loop raises on one of the first five kept copies that lacks metadata or a title |
| DictRanker.LogShown | utils/novelty_ranker.py:98-100 | the log loop over the shown copies raises nothing exactly when each of them has metadata with a title |
| DictRanker.LogShownAppend | utils/novelty_ranker.py:98-100 | once a run of copies logs cleanly, logging it followed by more copies raises what the later copies raise |
| DictRanker.LogTop | utils/novelty_ranker.py:98-100 | the log loop returns the first KeyError a shown copy raises, or none when every copy has metadata with a title |
| DictRanker.RankingLogs | utils/novelty_ranker.py:86-102 | once scoring completed, the ranking is returned exactly when each of the first five kept copies has a title to log, and is then the kept copies |
| DictRanker.ScoredAllCopies | utils/novelty_ranker.py:64-84 | a completed loop holds, position by position, the scored copy of each input record |
| DictRanker.ScoredAllSucceeds | utils/novelty_ranker.py:64-84 | the loop completes exactly when no record lets an exception escape |
| DictRanker.CompleteRecordScored | utils/novelty_ranker.py:64-71 | a record with every key read is copied with the model's score, whatever its source |
| DictRanker.MissingTextGivesSentinel | utils/novelty_ranker.py:72-84 | a record with an id but no title or summary gets the 5.0 "Scoring failed" sentinel |
| DictRanker.RankingLength | utils/novelty_ranker.py:57-94 | past the fast path a successful ranking has exactly top_papers_count records |
| DictRanker.RankingOrder | utils/novelty_ranker.py:86-94 | each ranked record is the scored copy of an input record; totals never increase along the result and equal totals keep their input order |
| StableSort.SortedEntries | src/paper_review/agents/ranker.py:82-84 | the sorted entries are the input items tagged with their key and position: keys never increase, equal keys keep input order, and every input item occurs exactly as often as in the input |
| StableSort.SortByKeyDesc | src/paper_review/agents/ranker.py:82-84 | the reverse-sorted list is a permutation of the input |
| StableSort.SortByKeyDescSpec | src/paper_review/agents/ranker.py:82-84 | there is a reordering of the input positions under which the result has non-increasing keys and equal keys in input order (Python's stable sort with reverse=True) |
| StableSort.KeptDominateDropped | src/paper_review/agents/ranker.py:86-87 | taking the first n sorted items keeps the n largest keys: an input item not kept has a key no larger than any kept one |
| StableSort.PrefixOfSortedFromInput | src/paper_review/agents/ranker.py:86-87 | a prefix of the sorted list is a sub-multiset of the input |
| Summarizer.TemplateFor | src/paper_review/agents/summarizer.py:57-98 | "ko" selects the Korean template and every other language the English one |
| Summarizer.AuthorLineFirstThree | src/paper_review/agents/summarizer.py:53 | authors past the third never reach the prompt; three or fewer are all listed, joined by ", " |
| Summarizer.CreatePrompt | src/paper_review/agents/summarizer.py:42-100 | the prompt carries the title, the abstract and the author line, in the template chosen by the language; with more than three authors the line is the first three joined by ", " |
| Summarizer.PaperIdOf | src/paper_review/agents/summarizer.py:112 | the summary id is the arXiv id when it is present and non-empty, else the first 20 characters of the title |
| Summarizer.SummaryFor | src/paper_review/agents/summarizer.py:102-145 | a summary always carries the paper's id, metadata and image paths, whether the call succeeds or fails |
| Summarizer.SummaryText | src/paper_review/agents/summarizer.py:121-145 | the summary text is the model's reply, or "Error creating summary: " followed by the failure's message |
| Summarizer.SummarizePapers | src/paper_review/agents/summarizer.py:147-166 | exactly one summary per paper, in input order |
| DictSummarizer.CreateDictPrompt | agents/summarizer.py:43-102 | the prompt is built exactly when the title, authors and summary keys are present, and carries them (the authors cut to three) in the template chosen by the language |
| DictSummarizer.SummarizeRecord | agents/summarizer.py:104-159 | summarizing raises exactly when the record lacks metadata or its arxiv_id; otherwise the dictionary is keyed by the arxiv_id and carries the metadata and the image paths ([] when absent) |
| DictSummarizer.SummarizePapers | agents/summarizer.py:161-181 | when no record raises, exactly one summary per record in order; otherwise the first record's exception escapes, all records before it having succeeded |
| DictSummarizer.CompleteRecordSummarized | agents/summarizer.py:114-159 | a record with every key read is summarized without raising, with the reply or the marked error of a failed call |
| DictSummarizer.MissingTextGivesErrorSummary | agents/summarizer.py:119-159 | a record with an id but missing its title, authors or summary still gets a summary, carrying the marked error |
| DictSummarizer.PromptsAgree | agents/summarizer.py:43-102 | the dictionary summarizer writes the same prompt as the other one for the same title, authors and abstract |
| Pipeline.EmptyReport | src/paper_review/core/pipeline.py:110-118 | the empty report has the given date, no summaries and all three counts zero |
| Pipeline.CountsAddUp | src/paper_review/core/pipeline.py:95-101 | every summary is counted under exactly one source, so the arXiv and Hugging Face counts add up to the number of summaries |
| Pipeline.Report | src/paper_review/core/pipeline.py:95-101 | the report holds the summaries, its total is their number, and the total splits into the two source counts |
| Pipeline.PartitionBySource | src/paper_review/core/pipeline.py:67-68 | splitting the merged list (arXiv papers first) by source gives back the arXiv list and the Hugging Face list unchanged and in order |
| Pipeline.FetchSources | src/paper_review/core/pipeline.py:47-58 | the arXiv papers are the metadata-only fetch's result and the Hugging Face papers the daily fetch's (each empty when its source is not selected); all are new, distinct, unprocessed and tagged with their source |
| Pipeline.RankArxiv | src/paper_review/core/pipeline.py:70-75 | without novelty, with the ranker disabled, or with no more arXiv papers than novelty_top_n (the configured count when that is 0), the list passes through unchanged; otherwise every arXiv paper holds the model's score and the result is the best n by descending total, ties in fetch order; the result is drawn from the arXiv papers without repeats, and ranking changes no paper's PDF path, text or images |
| Pipeline.ProcessRanked | src/paper_review/core/pipeline.py:84-88 | without process_pdfs nothing changes; with it, every ranked paper is processed in turn, the disk gains exactly the files those downloads write and each paper holds its processed contents; no score changes, so the stage 2 ranking of the arXiv papers still holds |
| Pipeline.ProcessedFromBlank | src/paper_review/core/pipeline.py:84-88 | papers that held nothing but a score before stage 3 each hold afterwards what process_paper gives them on the files their predecessors left |
| Pipeline.ReportImages | src/paper_review/core/pipeline.py:84-92 | after processing, the summary of each ranked arXiv paper carries exactly the images extracted from its PDF when the download succeeded on its predecessors' files, and none otherwise; the Hugging Face summaries carry none |
| Pipeline.SummarizeSelection | src/paper_review/core/pipeline.py:90-101 | the report is dated today and carries one summary per ranked arXiv paper, in order and as the paper now stands, followed by one per Hugging Face paper without images, with the counts adding up |
| Pipeline.PartitionAndRank | src/paper_review/core/pipeline.py:66-78 | the Hugging Face part passes through unchanged; the ranked part is drawn from the arXiv papers without repeats, equals them when novelty is off, contains no Hugging Face paper and is still unprocessed; which arXiv papers are kept, and in what order, is the ranker's top n as for RankArxiv |
| Pipeline.RunOnFetched | src/paper_review/core/pipeline.py:66-108 | stages 2 to 5 give a report summarizing the ranked arXiv papers followed by the Hugging Face papers, the ranked papers being the ranker's top n by score (or all arXiv papers when ranking does not apply) as for RankArxiv; without process_pdfs the disk and the ranked papers are untouched; with it the disk gains exactly the ranked papers' downloads and each ranked paper holds its PDF path, text and images as processed in turn |
| Pipeline.Run | src/paper_review/core/pipeline.py:32-108 | when neither source yields a paper the result is the empty report and the disk is untouched; otherwise the report summarizes the ranked arXiv papers (all of them, in fetch order, when novelty is off or ranking does not apply; otherwise every fetched arXiv paper is scored and the ranked ones are the best n by total, ties in fetch order) followed by every fetched Hugging Face paper; PDFs are processed only when asked, and then each ranked paper, and so its summary's image paths, holds what processing it in turn gives |
| WebParams.StripAll | src/paper_review/web/app.py:77 | each comma-separated piece is stripped of every character Python's str.isspace accepts, in order, with as many results as pieces |
| WebParams.ParseCommaList | src/paper_review/web/app.py:77 | every parsed item is non-empty, contains no comma and has no leading or trailing Python whitespace |
| WebParams.BuildFilterConfig | src/paper_review/web/app.py:76-91 | the configuration is accepted exactly when the parsed sources list is non-empty and names only known sources, both filter modes are known and days_back is at least 1; an accepted configuration has one source per parsed name, in order, the given modes, the parsed categories and keywords, the given days_back, no explicit dates, and every other field at its default |
| WebParams.ParseJoin | src/paper_review/web/app.py:80-81 | a list of clean items joined with commas parses back to the same list |
| WebParams.ParseIdempotent | src/paper_review/web/app.py:80-81 | parsing the re-joined parse of any text gives the same list again |
| WebParams.BlankSourcesRejected | src/paper_review/web/app.py:132-136 | a sources parameter of only commas and whitespace parses to the empty list and the configuration is refused |
| WebParams.DefaultSourcesParse | src/paper_review/web/app.py:58 | the default sources text parses to the two source names |
| WebParams.DefaultQueryGivesDefaults | src/paper_review/web/app.py:58-63 | with every parameter at its default, the handler builds the default filter configuration, which is valid |

## Left out

- Network, LLM and library calls: the arXiv `Search`, the HTTP client of the daily-papers API, the OpenAI and Ollama clients, `json.loads`, and the PDF and image libraries (`fitz`, PIL). Each is a function value whose outcome the model takes as given. `src/paper_review/utils/llm.py`, `src/paper_review/utils/pdf.py`, `utils/pdf_processor.py` and `utils/ollama_multimodal.py` are not part of this model.
- JSON values: numbers, booleans, strings and objects are told apart. Arrays and null are a single `JOther`, which the scorer treats as a non-number. A boolean criterion counts as 1 or 0, as a Python `bool` does in `+` and as pydantic's lax `float` field accepts it. The dictionary ranker's record keeps such a criterion as that number, where the source keeps `True` or `False` itself.
- Image bytes: the decoding, colour conversion and saving of images are abstracted. An image entry either fails to decode, is empty, or has a width and a height and either saves or fails to save; every failure is a per-image error. The image files written and the `mkdir` of the output directory are not recorded on the `Disk`.
- `get_image_info` is left out, because it only reads image properties for display.
- Text extraction from PDFs is a function from the PDF path to its text.
- Clock and timezones: `datetime.now()` is a parameter, and dates are integer microseconds or day numbers. The fetchers' window test compares the integers, which is the evidently intended date filter. As written, the source compares naive window bounds with timezone-aware published dates and raises a `TypeError` there. `Filters.InWindowAsWritten` models that comparison, and the finding below records it.
- Each operation reads the clock once. When the source calls `datetime.now()` twice in one run, the model uses one value for both.
- `strftime("%Y-%m-%d")`: report dates and file names take the formatted date as a given string.
- Floating point: scores are reals, with no NaN, rounding or overflow. The source never clamps scores to [1, 10], and neither does the model.
- `novelty_min_score` is validated but never read by the source, so no score floor is modelled.
- Python's dynamic typing and pydantic's coercion are not modelled. Fields have their declared types, and a validation failure is a `Failure` value rather than an exception.
- Dictionary records keep only the keys the agents read (`title`, `authors`, `summary`, `arxiv_id`, `image_paths`). Other keys pass through the original dictionaries unread.
- YAML documents are a `Value` datatype with string keys. Non-string mapping keys are left out.
- Paths are joined with "/". Normalisation of `Path` objects is left out.
- Prompt templates are opaque constants, one per language. Their wording is not modelled; only the structure that is filled in is.
- Error-message texts other than the prefixes the code builds on ("Error creating summary: ", "Error: ", "Scoring failed") are given as strings.
- The tracker's timestamps are integers supplied by the caller. The result of a tool call is given already converted to its string (`str(result)`), and the session id's clock is a parameter.
- Logging, console output, the CLI in `main.py`, template rendering in `agents/presenter.py`, FastAPI routing, background tasks and the module globals `latest_report`/`is_running` are left out. The text logged is not modelled; only the `KeyError` that the dictionary ranker's top-five log loop raises when a kept copy lacks metadata or a title is.
- `src/paper_review/agents/base.py` is an abstract class, and the `__init__.py` files only re-export, so neither is modelled.
- The asynchronous `run` and `fetch_daily_papers` are modelled as sequential code, since nothing in them runs concurrently.
- The outer "Scoring failed" handler of `src/paper_review/agents/ranker.py:69-78` cannot be reached, because `_score_paper` catches every exception. The model has no branch for it; `Scoring.ScoreFailureIsNeutral` covers the failure path that can be reached.

## Findings

| source | as written | input that shows it | evidently intended | confidence | as-written member | corrected member |
|---|---|---|---|---|---|---|
| src/paper_review/agents/fetcher/arxiv.py:145-146 | `get_date_range` (models/filters.py:58-70) builds naive bounds (`datetime.combine`, `datetime.now()`), and `date_from <= paper.metadata.published` compares them with aware dates, which raises `TypeError`. In `fetch_metadata_only` it escapes, so any arXiv result aborts the run. In `fetch_daily_papers` (the same test at huggingface.py:134-135) the broad handler turns it into an empty list. | any arXiv result (its `published` is in UTC), or a Hugging Face entry whose `publishedAt` ends in "Z" | a paper is kept when its publication instant lies in the window | not executed | Filters.AwarePublishedRaises | ArxivFetcher.ApplyFilters |
