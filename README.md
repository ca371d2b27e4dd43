# Research paper finder: the aggregation pipeline in Dafny

This project models the back end of the research paper finder, a Cloudflare
Worker. A user's question becomes search terms: the AI model is asked for
terms, and the query's own keywords are the fallback. Each term goes to the
paper providers (arXiv and a simulated Google Scholar). Their results become
one paper record, which is then validated, enriched, de-duplicated, ranked and
cut to twenty. Every service keeps its results in one shared in-memory cache.
Each cache entry has its own expiry time, and the oldest entry is evicted at
capacity. Around the pipeline sit:

- a retry helper with exponential backoff and an error classifier;
- input validation and sanitising;
- a second aggregator over PubMed, DOAJ, CORE and BASE;
- performance helpers: a sliding-window rate limiter, a bounded metric history and chunked batch processing;
- the pure helpers of the browser front end.

Modules, in the order the program layers them:

| module | file | what it holds |
|---|---|---|
| `Wrappers`, `Config`, `Arith` | wrappers.dfy, config.dfy, arith.dfy | `Option`/`Result`, the configuration constants, two arithmetic facts |
| `Strings`, `Seqs`, `TextMatch` | strings.dfy, seqs.dfy, text_match.dfy | `trim`, `split`, `toLowerCase` (ASCII), `includes`; `filter`, the first-per-key de-duplication pass, `slice(-n)`; the regular expressions the parsers use: leftmost match, global match, capture groups |
| `Caching` | cache.dfy | the `Cache` class (key order plus map) and the store functions it is proved against |
| `CachedValues` | cached.dfy | the "cache first, search, cache the result" flow shared by the paper services |
| `ArraySort`, `PaperProcessor` | array_sort.dfy, paper_processor.dfy | in-place sorting by a comparator; the paper record pipeline, grouping and statistics |
| `ErrorHandler`, `Http`, `Validation` | error_handler.dfy, http.dfy, validation.dfy | retry, error classification, response bodies; the `response.ok` check; the validators |
| `AiService`, `ArxivService`, `ScholarService`, `SearchService`, `AcademicDbService` | ai_service.dfy, arxiv_service.dfy, scholar_service.dfy, search_service.dfy, academic_db_service.dfy | the services |
| `Performance`, `EnhancedFeatures` | performance.dfy, enhanced_features.dfy | the performance helpers and the front-end helpers |

The cache, the rate limiter, the performance monitor and the recent-search
list are classes whose methods update their fields. Each method is proved
against a function of the old state (`Insert`, `Lookup`, `Sweep`,
`LimiterStep`, `Recorded`, `LastN`), and the lemmas state what the source
promises about those functions. The loops of the source stay loops:

- the de-duplication passes;
- `cleanup`;
- `parseArxivXML` and `parsePubMedXML`;
- `withRetry`;
- the term loop of `searchResearchPapers`;
- the grouping and statistics loops;
- `calculateRelevanceScore`;
- `batchProcess`;
- the tally in `getTopCategory`.

Both array sorts are in-place methods with a permutation postcondition.

What the outside world supplies is passed in as parameters:

- the clock (`now`, `today`, the current year); a cached search reads the cache at `now` and writes it at a later reading `writeNow`, as `cache.set` reads `Date.now()` again after the search;
- each `Math.random()` draw (`draw`, or `draws(k)` for the `k`-th);
- what the network and the AI model answered, as a `Result` per attempt; a model reply is an `Option`, since `response.response` may be `undefined`;
- the parsed JSON of the provider bodies.

Asynchronous code is modelled as running in launch order. `Promise.allSettled`
keeps that order, so each fan-out is a sequential map. Sleeps are recorded as
lists of delays.

`relevanceScore` is a `real`. A publication date stays text. A day number
decoded from `YYYY`, `YYYY-MM` or `YYYY-MM-DD` stands in for `new Date(...)`,
and any other text is an invalid date, whose comparisons are false (NaN).

Where the code and the written description of the system differ, the model
follows the code:

- `extractKeywords` can return an empty list; only the AI path falls back to `['research']`.
- The ranking comparator is not transitive, so the ranking is proved pairwise for neighbours. It is proved total only under a hypothesis that makes the comparator consistent.
- `SearchService` asks only arXiv and Scholar; the academic database aggregator is a separate component.
- Every provider catches its own errors. The "rejected" branches of the `allSettled` loops and the outer `catch` blocks of the search services therefore never run.

## Model

| member | source | states |
|---|---|---|
| Caching.GenerateKey | src/utils/cache.js:10-12 | the key is the prefix, ':' and the arguments joined by ':' |
| Caching.GenerateKeyPrefixesSeparate | src/utils/cache.js:10-12 | two different colon-free prefixes never yield the same key, so the services' key spaces are disjoint |
| Caching.GenerateKeyInjective | src/utils/cache.js:10-12 | with one argument, the key determines the argument |
| Caching.Cache.constructor | src/utils/cache.js:4-8 | a new cache is empty and keeps the given capacity and default time to live |
| Caching.Cache.Set | src/utils/cache.js:14-28 | the new state is the old store with the oldest key evicted at capacity and the entry written with expiry now + ttl·1000, where a falsy ttl means the default |
| Caching.EvictWellFormed | src/utils/cache.js:15-19 | deleting the oldest key keeps the key order and the map in step |
| Caching.InsertWellFormed | src/utils/cache.js:14-28 | a write keeps the key order and the map in step (each key listed exactly once) |
| Caching.SetThenGet | src/utils/cache.js:14-44 | after a write at `now`, a read at any time up to the expiry returns the value written |
| Caching.SetThenGetExpired | src/utils/cache.js:14-44 | after the expiry (strictly later) the read returns nothing and deletes the key |
| Caching.SetAtCapacityEvictsOldest | src/utils/cache.js:16-19 | at capacity a write deletes exactly the earliest-inserted key; every other entry is untouched |
| Caching.SetKeepsBound | src/utils/cache.js:16-27 | with capacity at least 1 the size never exceeds the capacity |
| Caching.OverwriteKeepsPosition | src/utils/cache.js:16-27 | overwriting a key keeps its insertion position; at capacity the oldest key is still evicted, so the size drops by one |
| Caching.Cache.Get | src/utils/cache.js:30-44 | returns the value of a live entry; an expired entry is deleted and reported absent; the new state is `Lookup` of the old |
| Caching.GetMissing | src/utils/cache.js:30-35 | reading a missing key returns nothing and changes nothing |
| Caching.GetExpiredRemovesOnlyIt | src/utils/cache.js:37-41 | reading an expired key deletes exactly that key, keeping every other entry and its position |
| Caching.Cache.Has | src/utils/cache.js:46-48 | the answer is whether `get` returns a value, with the same lazy deletion |
| Caching.Cache.Delete | src/utils/cache.js:50-52 | returns true iff the key was present; the key is removed from the map and from its one position in the order |
| Caching.RemoveWellFormed | src/utils/cache.js:50-52 | deleting keeps the order and the map in step |
| Caching.RemovePresent | src/utils/cache.js:50-52 | deleting a present key removes exactly its position in the order |
| Caching.Cache.Clear | src/utils/cache.js:54-56 | afterwards the cache is empty and its size is 0 |
| Caching.Cache.Size | src/utils/cache.js:58-60 | the size is the number of keys in insertion order |
| Caching.SizeIsOrderLength | src/utils/cache.js:58-60 | in a well-formed store the number of ordered keys is the number of entries |
| Caching.Cache.Cleanup | src/utils/cache.js:63-70 | the loop visits the keys in insertion order and leaves the store `Sweep` of the old one |
| Caching.SweepRemovesExactlyExpired | src/utils/cache.js:63-70 | a key survives cleanup iff its entry is live; survivors keep their entry and relative order |
| Caching.LiveKeys | src/utils/cache.js:63-70 | every live key is a key of the insertion order |
| Caching.Cache.GetStats | src/utils/cache.js:73-80 | cleans up first, so the size reported is the number of live entries; returns the capacity and time to live |
| CachedValues.PaperFlowHit | src/services/arxiv-service.js:14-21 | a live cached list is returned without searching and the cache is unchanged |
| CachedValues.PaperFlowStores | src/services/arxiv-service.js:25-41 | on a miss the list found is returned, and reading the key at any time from the write until its expiry (write time + ttl) returns it |
| CachedValues.PaperFlowFailure | src/services/arxiv-service.js:42-46 | on a miss a failed search returns no papers and writes nothing |
| PaperProcessor.ValidatePaperExamples | src/tests/test-suite.js:133-155 | the complete test paper passes `validatePaper`; the one with an empty title fails |
| PaperProcessor.EnrichValidPaper | src/services/paper-processor.js:67-80 | on a paper passing `validatePaper`, enrichment keeps title, authors, citations and relevance and does not depend on the random draw |
| PaperProcessor.EnrichComplete | src/services/paper-processor.js:67-80 | enrichment changes nothing on a complete paper with non-empty title, date and source |
| PaperProcessor.Normalize | src/services/paper-processor.js:49-51 | the normalised text keeps only `\w` and white-space characters and is no longer than its input |
| PaperProcessor.KeyIgnoresPunctuation | src/services/paper-processor.js:47-54 | a title with trailing punctuation gets the same key as without it |
| PaperProcessor.KeyIgnoresCase | src/services/paper-processor.js:47-54 | titles differing only in letter case get the same key |
| PaperProcessor.KeyIsNotInjective | src/services/paper-processor.js:47-54 | title "a_b" with no author and title "a" with author "b" get the same key |
| PaperProcessor.RemoveDuplicates | src/services/paper-processor.js:7-25 | the loop returns `Dedupe` of the input by `generatePaperKey` |
| Seqs.DedupeKeepsFirst | src/services/paper-processor.js:7-25 | de-duplication keeps exactly the first element of each key: everything kept is the first of its key, and every first-of-its-key element is kept |
| Seqs.DedupeDistinct | src/services/paper-processor.js:7-25 | the kept elements have pairwise distinct keys |
| Seqs.DedupeIdempotent | src/services/paper-processor.js:7-25 | de-duplicating twice equals de-duplicating once |
| Seqs.DedupeFromIsSubsequence | src/services/paper-processor.js:7-25 | the output is a subsequence of the input |
| PaperProcessor.RemoveDuplicatesExample | src/tests/test-suite.js:112-121 | two identical papers and a third give two papers |
| PaperProcessor.CompareRanks | src/services/paper-processor.js:28-41 | the comparator's sign: higher relevance first when the scores differ by more than 0.1, else more citations first, else the newer date first |
| PaperProcessor.CompareAntisymmetric | src/services/paper-processor.js:28-41 | swapping the arguments negates the comparator |
| PaperProcessor.CompareNotTransitive | src/services/paper-processor.js:28-41 | relevance 0.00, 0.08 and 0.16 with suitable citations give a cycle a < b < c < a |
| PaperProcessor.CloseScoresTransitive | src/services/paper-processor.js:28-41 | when all scores are within 0.1 of each other and all dates are valid, the comparator is transitive on the list |
| PaperProcessor.SortPapers | src/services/paper-processor.js:27-45 | the array is reordered in place: each element traced to its input position, every element ordered before or level with its neighbour, a pair reversed only where the comparator strictly says so, and tied papers in input order (a stable sort) |
| ArraySort.Sort | src/services/paper-processor.js:28 | in-place stable sort by an antisymmetric comparator: a permutation traced by an index map, with ordered neighbours, a pair reversed only where the comparator strictly orders it so, and tied elements in input order |
| ArraySort.InsertLast | src/services/paper-processor.js:28 | one insertion step: with the first `i` elements in order, moving `a[i]` left past greater neighbours leaves the first `i + 1` in order, same elements |
| ArraySort.NeighboursOrderedToOrdered | src/services/paper-processor.js:28 | under a transitive comparator, ordered neighbours mean a fully ordered array |
| PaperProcessor.SortExample | src/tests/test-suite.js:123-131 | relevance 0.9 with 5 citations is ranked before relevance 0.5 with 10 |
| PaperProcessor.Prepare | src/services/paper-processor.js:86-88 | the filter-and-enrich step keeps only papers that pass `validatePaper` and never lengthens the list |
| PaperProcessor.ProcessPapers | src/services/paper-processor.js:82-99 | every result passes `validatePaper` and has its own key; the result is a reordering of the de-duplicated valid papers, no longer than the input, traced by an index map, with ordered neighbours, tied papers in the order they arrived, and fully ordered when the comparator is transitive on it |
| PaperProcessor.LimitPapers | src/services/paper-processor.js:101-103 | a prefix of the input of length min(n, limit), or n + limit (at least 0) for a negative limit |
| PaperProcessor.GroupPapersBySource | src/services/paper-processor.js:105-117 | one group per source present (`source` or 'Unknown'), each the papers of that source in input order |
| PaperProcessor.GroupsPartition | src/services/paper-processor.js:105-117 | a paper lies in a group iff it has that group's source; each group is a subsequence of the input |
| PaperProcessor.TallyPapers | src/services/paper-processor.js:135-153 | after the one pass the source map holds exactly the sources seen, each with its number of papers, and the citation total, the maximum from 0, the minimum (none for no papers) and the earliest and latest dates are the folds over all the papers |
| PaperProcessor.GetPaperStatistics | src/services/paper-processor.js:119-163 | the total, the count per source, the citation total, the rounded average (0 for no papers), the maximum from 0, the minimum (0 for no papers) and the date range of the date fold |
| PaperProcessor.RoundDivNearest | src/services/paper-processor.js:155-156 | `Math.round(total / n)`: the nearest whole number, halves rounding up |
| PaperProcessor.SourceCountsSumToTotal | src/services/paper-processor.js:135-138 | summed over the sources present, the source counts add up to the number of papers |
| PaperProcessor.MaxCitationsBounds | src/services/paper-processor.js:142 | the maximum bounds every citation count and is 0 or one of them |
| PaperProcessor.MinCitationsBounds | src/services/paper-processor.js:143 | the minimum of a non-empty list is one of its citation counts and bounds them all |
| PaperProcessor.EarliestIsMinimum | src/services/paper-processor.js:145-149 | with valid dates, the earliest date is one of the dates and no later than any |
| PaperProcessor.LatestIsMaximum | src/services/paper-processor.js:150-152 | with valid dates, the latest date is one of the dates and no earlier than any |
| PaperProcessor.InvalidFirstDateSticks | src/services/paper-processor.js:145-152 | an invalid date first in the list stays the earliest and the latest, because comparisons with it are false |
| ErrorHandler.Handle | src/utils/error-handler.js:7-33 | the first phrase the message contains decides the response; with none of them it is a 500 internal error |
| ErrorHandler.HandleStatus | src/utils/error-handler.js:11-32 | 405 exactly for 'Method not allowed'; 400 exactly for 'Invalid JSON' or 'Query'; 500 otherwise; only the 'Query' case echoes the message |
| ErrorHandler.HandleIsStable | src/utils/error-handler.js:11-32 | the message of a handled error is classified again into the same response |
| ErrorHandler.NonPostRequestIsInternalError | src/utils/validation.js:81-83 | the refusal of a non-POST request contains none of the phrases and becomes a 500 internal error |
| ErrorHandler.EmptyQueryIsBadRequest | src/utils/validation.js:10-12 | the refusal of a blank query becomes a 400 carrying its own text |
| ErrorHandler.CreateErrorResponse | src/utils/error-handler.js:35-39 | the body carries `details` only when it is present and non-empty |
| ErrorHandler.WithErrorHandling | src/utils/error-handler.js:60-66 | a successful outcome passes through; a thrown error becomes `handle(error)` |
| ErrorHandler.RetryOutcome | src/utils/error-handler.js:78-98 | at most `maxRetries` invocations (none when `maxRetries` ≤ 0); the first success is returned; if all fail, the last error is rethrown |
| ErrorHandler.RetryDelays | src/utils/error-handler.js:87-94 | before attempt k + 1 the wait is baseDelay·2^(k−1); there is no wait after the last attempt |
| ErrorHandler.RetryExample | src/utils/error-handler.js:78-98 | fail, fail, succeed with three retries waits baseDelay and then 2·baseDelay |
| ErrorHandler.WithRetry | src/utils/error-handler.js:78-98 | the loop's outcome, attempt count and delays equal those of the retry run `Retry` |
| Http.Checked | src/services/arxiv-service.js:69-71 | a 2xx response goes through with its body; any other status is thrown as '<service> API error: <status>' |
| Http.Body | src/services/academic-db-service.js:79-83 | the body a service goes on with: present exactly for a 2xx response whose body could be read |
| Validation.ValidateQuery | src/utils/validation.js:4-19 | an accepted query is trimmed, with 1 to 500 UTF-16 code units |
| Validation.ValidateQueryOutcome | src/utils/validation.js:4-19 | refused exactly when missing, blank, or longer than 500 UTF-16 code units once trimmed; otherwise the trimmed text |
| Validation.ValidateQueryFixedPoint | src/utils/validation.js:9-18 | an accepted query validates to itself |
| Validation.ValidateQueryExamples | src/tests/test-suite.js:72-84 | "machine learning" is accepted as it is; the empty string is refused as not a non-empty string |
| Validation.ValidateQueryTooLong | src/tests/test-suite.js:86-94 | any query over 500 code units without surrounding space is refused as too long |
| Validation.ValidateQueryCountsCodeUnits | src/utils/validation.js:14 | 300 astral characters are 600 code units, so such a query is refused as too long |
| Validation.GenerateSessionId | src/utils/validation.js:72-74 | a generated id is 'session_', the random part and '_', followed by a non-empty run of decimal digits (the clock reading) |
| Validation.ValidateSessionId | src/utils/validation.js:21-32 | a non-empty id of at most 100 UTF-16 code units is returned; a longer one is refused; a missing or empty one is replaced by the generated id |
| Validation.ValidateSessionIdExamples | src/tests/test-suite.js:96-104 | 'session_123' is kept; a missing id is replaced by one starting with 'session_' |
| Validation.RemoveAngles | src/utils/validation.js:40 | the result holds no '<' or '>' |
| Validation.RemoveProtocol | src/utils/validation.js:41 | the result is no longer than the input and holds only its characters |
| Validation.SanitizeInput | src/utils/validation.js:34-43 | the result holds no '<' or '>' and is trimmed; a non-string gives '' |
| Validation.RemoveProtocolOfClean | src/utils/validation.js:41 | text without 'javascript:' (in any case) passes through unchanged |
| Validation.SanitizeIsSinglePass | src/utils/validation.js:39-42 | 'javajavascript:script:' sanitises to 'javascript:': a single pass does not reach a fixed point |
| Validation.ValidateSearchTerms | src/utils/validation.js:45-55 | refused exactly for a non-array or an empty array; otherwise a subsequence of the sanitised terms, in their order, holding every non-empty sanitised term exactly as often as the input does and no empty one |
| Validation.SanitizedMembers | src/utils/validation.js:54 | every kept term is trimmed and free of angle brackets |
| Validation.ValidateSearchTermsMayBeEmpty | src/utils/validation.js:54 | `['<>']` validates to the empty list |
| Validation.ValidatePapers | src/utils/validation.js:57-70 | refused exactly for a non-array; otherwise an order-preserving subsequence holding exactly the listable records |
| Validation.ValidatePapersLooserThanValidatePaper | src/utils/validation.js:62-69 | every paper `validatePaper` accepts is listable, but a relevance of 1.5 is listable and not valid |
| Validation.ValidateRequest | src/utils/validation.js:76-86 | accepted iff a request is present and its method is 'POST' |
| AiService.ParseSearchTerms | src/services/ai-service.js:121-129 | one to five terms, each non-empty and trimmed |
| AiService.ParseSearchTermsTakesFirstLines | src/services/ai-service.js:121-129 | the terms are the first (up to five) non-empty trimmed lines in reply order; only a reply without one gives ['research'] |
| AiService.ExtractKeywords | src/services/ai-service.js:131-137 | at most five keywords, each longer than two UTF-16 code units and free of spaces |
| AiService.ExtractKeywordsAreLowerCase | src/services/ai-service.js:131-137 | keywords hold no upper-case letter and only characters of the lower-cased query |
| AiService.ExtractKeywordsExample | src/services/ai-service.js:131-137 | "machine learning" gives ["machine", "learning"] |
| AiService.KeywordsOfTwoWords | src/services/ai-service.js:131-137 | a query whose lower-cased text is two words joined by a space gives those of the two longer than two code units, in order |
| AiService.ExtractKeywordsMayBeEmpty | src/services/ai-service.js:131-137 | a query of short words gives no keyword at all |
| AiService.SearchTermsCacheHit | src/services/ai-service.js:15-22 | a cached term list is returned as it is and the cache is unchanged, whatever the model would answer |
| AiService.SearchTermsMissWrites | src/services/ai-service.js:26-38 | on a miss a defined reply gives its parsed terms, and the cache is the looked-up cache with those terms written under the query's key at `writeNow` |
| AiService.SearchTermsAiSuccess | src/services/ai-service.js:26-38 | on a miss a defined reply is parsed, and reading the key returns the parsed terms until they expire |
| AiService.SearchTermsAiFailure | src/services/ai-service.js:39-45 | on a miss a failed model call gives the keywords and writes nothing |
| AiService.SearchTermsNoReply | src/services/ai-service.js:26-45 | an `undefined` first reply counts as a success, so `withRetry` makes one attempt; parsing it throws, so the keywords answer and nothing is written |
| AiService.GenerateSearchTerms | src/services/ai-service.js:14-46 | returns and leaves the cache as the term flow does, given the outcome of the retried model call, `undefined` replies included |
| AiService.PaperLine | src/services/ai-service.js:111 | a paper's line opens with its number, '. "' and the title |
| AiService.SummaryLines | src/services/ai-service.js:109-112 | min(5, n) lines; line k starts with its number k + 1, '. "' and the title of paper k |
| AiService.ResponsePromptOpensWithQuery | src/services/ai-service.js:114-116 | the prompt names the query and the paper count before any paper line |
| AiService.Sources | src/services/ai-service.js:140 | one source per paper, in order |
| AiService.DistinctSourcesAreDistinct | src/services/ai-service.js:140 | the fallback names no source twice |
| AiService.DistinctSourcesAreFirstOccurrences | src/services/ai-service.js:140 | each source named is a paper's source at that source's first occurrence, in order |
| AiService.DistinctSourcesCoverAllSources | src/services/ai-service.js:140 | every paper's source is named |
| AiService.FallbackResponse | src/services/ai-service.js:139-142 | the fallback text opens with the paper count and the quoted query |
| AiService.ResponseAiFailure | src/services/ai-service.js:71-77 | a failed model call answers with the fallback text and writes nothing |
| AiService.EmptyReplyIsNotServed | src/services/ai-service.js:49-70 | an empty reply is cached but never served: the next call finds it falsy and asks the model again |
| AiService.MissingReplyIsNotServed | src/services/ai-service.js:49-70 | an `undefined` reply is returned as it is and cached as `undefined`; a read finds that entry, which is falsy, so the next call asks the model again |
| AiService.GenerateResponse | src/services/ai-service.js:48-78 | returns and leaves the cache as the response flow does, given the outcome of the retried model call; an `undefined` reply is returned (`None`) |
| TextMatch.FindsIffOccurs | src/services/arxiv-service.js:96-101 | a `<tag>([^<]+)</tag>` pattern matches somewhere iff its literal text with a non-empty '<'-free group occurs |
| TextMatch.FirstIsLeftmost | src/services/arxiv-service.js:96-101 | `match` without the `g` flag returns the leftmost match: no index before it starts one, and none at all when it returns null |
| TextMatch.AllFromMatches | src/services/arxiv-service.js:79 | the global matches are matches of the pattern, in order without overlap, and none is missed |
| TextMatch.FirstOfCapture | src/services/arxiv-service.js:96-101 | the leftmost match of a capture pattern is the one a span pattern looks for |
| ArxivService.ParseEntryNullIff | src/services/arxiv-service.js:96-105 | an entry yields a paper iff it holds `<title>X</title>` with X non-empty and free of '<' |
| ArxivService.BuiltFields | src/services/arxiv-service.js:115-123 | a parsed paper has a trimmed title, the trimmed summary or 'No abstract available', at least one author, source 'arXiv', 0 citations, and relevance in [0.6, 1.0) for a draw in [0, 1) |
| ArxivService.AuthorNames | src/services/arxiv-service.js:99-109 | one name per `<author><name>X</name></author>` match |
| ArxivService.AuthorsAreMatches | src/services/arxiv-service.js:107-118 | the authors are the names of the author matches in document order, or ['Unknown Author'] without any |
| ArxivService.NameOfAuthorMatch | src/services/arxiv-service.js:108 | reading `<name>` back out of an author match gives that match's group |
| ArxivService.UrlFromId | src/services/arxiv-service.js:112-113 | with an id ending in a non-empty segment, the url is that segment's abstract page |
| ArxivService.UrlFromPlainId | src/services/arxiv-service.js:112-113 | an id without '/' is its own last segment |
| ArxivService.UrlWithoutId | src/services/arxiv-service.js:112-113 | without an id, or with one ending in '/', the url is the alternate link, or '' |
| ArxivService.ParseFeed | src/services/arxiv-service.js:77-93 | no more papers than `<entry>` blocks |
| ArxivService.FeedFields | src/services/arxiv-service.js:77-124 | every paper of a feed has the fields `BuiltFields` states |
| ArxivService.ParseArxivXML | src/services/arxiv-service.js:77-93 | the loop pushes the parsed entries in document order, skipping the null ones |
| ArxivService.FetchRetriesBadStatus | src/services/arxiv-service.js:61-75 | two bad statuses and then an ok one give the third body after waits of 1 and 2 seconds |
| ArxivService.FetchGivesUp | src/services/arxiv-service.js:61-75 | three bad statuses throw the third error after three attempts |
| ArxivService.SearchWhenDown | src/services/arxiv-service.js:13-46 | with every status bad, a miss returns no papers and caches nothing |
| ArxivService.SearchPapers | src/services/arxiv-service.js:13-47 | returns and leaves the cache as the cached paper flow does over the retried fetch and the parse |
| ScholarService.GenerateMockPapers | src/services/scholar-service.js:53-87 | exactly four papers, one per template |
| ScholarService.MockPapersShape | src/services/scholar-service.js:55-86 | template order; source 'Google Scholar'; paper i's url has the encoded query and start=i; every title and abstract contains the query |
| ScholarService.CitationsRange | src/services/scholar-service.js:58 | `Math.floor(r·spread) + base` lies in [base, base + spread − 1] for r in [0, 1) |
| ScholarService.MockPapersRanges | src/services/scholar-service.js:58-85 | citations in [10, 209], [5, 154], [1, 100], [20, 319]; relevance in [0.7, 1.0) |
| ScholarService.MockPapersValid | src/services/scholar-service.js:53-87 | every generated paper passes `validatePaper`, whatever the query |
| ScholarService.SearchOnMiss | src/services/scholar-service.js:24-39 | on a miss the four generated papers are returned, and reading the key returns them until they expire |
| ScholarService.SearchPapers | src/services/scholar-service.js:12-45 | returns and leaves the cache as the cached paper flow does over the generated papers |
| ScholarService.SearchWithScraping | src/services/scholar-service.js:96-101 | the generated papers: four, all from 'Google Scholar' |
| ScholarService.SearchWithApi | src/services/scholar-service.js:104-109 | the generated papers: four, all from 'Google Scholar' |
| SearchService.SearchTerm | src/services/search-service.js:57-82 | the arXiv papers followed by the Scholar papers, each search going through the cache |
| SearchService.TermWithArxivDown | src/services/search-service.js:57-82 | a term whose arXiv search fails still yields the four Scholar papers |
| SearchService.LaterTermKeepsEarlierPapers | src/services/search-service.js:26-40 | the papers for `terms + [t]` are those for `terms` followed by what `t` found |
| SearchService.SearchTerms | src/services/search-service.js:26-40 | the loop appends each term's papers in term order, as the term fold does |
| SearchService.SearchResearchPapers | src/services/search-service.js:16-55 | only the first three terms are searched; the processed list is a permutation of the n de-duplicated valid papers found, ranked (neighbours ordered, fully ordered when the comparator is transitive on it), and the result is its first min(20, n) papers, each valid, with distinct keys |
| SearchService.KeptOutrankDropped | src/services/search-service.js:45-46 | with a ranked list, every kept paper ranks no lower than every dropped one |
| SearchService.DroppedTiesCameLater | src/services/search-service.js:44-45 | where the cut to twenty separates two tied papers, the kept one arrived first |
| SearchService.HealthCheck | src/services/search-service.js:99-123 | both flags are true, because neither provider lets an error escape; the cache is left as the two "test" searches leave it |
| AcademicDbService.ParseArticleNullIff | src/services/academic-db-service.js:118-124 | an article yields a record iff it holds `<ArticleTitle>X</ArticleTitle>` with X non-empty and free of '<' |
| AcademicDbService.AuthorNames | src/services/academic-db-service.js:125-131 | each name is non-empty and trimmed |
| AcademicDbService.ArticleFields | src/services/academic-db-service.js:133-145 | a record has a trimmed title, at least one author, the date 'year-01-01', the PubMed url of its PMID or the home page, source 'PubMed' and 0 citations |
| AcademicDbService.ParsePubMed | src/services/academic-db-service.js:112-153 | no more records than `<PubmedArticle>` blocks |
| AcademicDbService.PubMedFields | src/services/academic-db-service.js:112-153 | every record is well built, with relevance in [0.6, 1.0) for draws in [0, 1) |
| Seqs.CollectEach | src/services/academic-db-service.js:116-150 | the loop over the article texts (and over the arXiv entries) yields exactly the records the item-by-item parse keeps, in document order, each item parsed with the count of records kept before it |
| AcademicDbService.ParsePubMedXml | src/services/academic-db-service.js:112-153 | the loop pushes the parsed articles in document order, skipping those without a title |
| AcademicDbService.PubMedRequests | src/services/academic-db-service.js:68-110 | no ids: no details request and no papers; with ids: the details of exactly those ids are requested, and the papers are their parse when that succeeds |
| AcademicDbService.SearchDoaj | src/services/academic-db-service.js:155-187 | one record per DOAJ result when the request succeeds and `results` is present, none otherwise |
| AcademicDbService.SearchCore | src/services/academic-db-service.js:189-221 | one record per CORE result when the request succeeds and `data` is present, none otherwise |
| AcademicDbService.SearchBase | src/services/academic-db-service.js:223-255 | one record per BASE result when the request succeeds and `results` is present, none otherwise |
| AcademicDbService.MappersKeepPresentFields | src/services/academic-db-service.js:172-248 | for DOAJ, CORE and BASE: a missing or empty title becomes 'Untitled', a missing or empty abstract 'No abstract available', a missing author list ['Unknown Author'] and a missing or empty date the current year (CORE: today); present titles, abstracts and author lists, an empty author list included, are kept |
| AcademicDbService.MappedFields | src/services/academic-db-service.js:172-249 | every mapped record has its provider's source, 0 citations and relevance in [0.6, 1.0) |
| AcademicDbService.RemoveDuplicates | src/services/academic-db-service.js:257-267 | the pass returns `Dedupe` of the input by the normalised title |
| AcademicDbService.TitleDedupe | src/services/academic-db-service.js:257-267 | distinct title keys, idempotent, and every kept paper is the first of its title key |
| AcademicDbService.Bonus | src/services/academic-db-service.js:287-290 | the word bonus is at most 4 per query word |
| AcademicDbService.ScoreRange | src/services/academic-db-service.js:281-293 | the score is the paper's relevance plus a whole number in [0, 4·words] |
| AcademicDbService.CalculateRelevanceScore | src/services/academic-db-service.js:281-293 | the loop computes the score: 3 per word in the title, 1 per word in the abstract, plus the relevance |
| AcademicDbService.BonusExtremes | src/services/academic-db-service.js:287-290 | words in neither text add nothing; words in both add 4 each |
| AcademicDbService.EmptyWordAddsFour | src/services/academic-db-service.js:270-289 | an empty query word adds 4 |
| AcademicDbService.SortByRelevance | src/services/academic-db-service.js:269-279 | the array is a permutation of its input traced by an index map, descending by score, with papers of equal score in input order |
| AcademicDbService.DedupeAndRank | src/services/academic-db-service.js:48-49 | the merged records, de-duplicated by title, reordered into descending score order, with papers of equal score in merge order |
| AcademicDbService.SearchPapers | src/services/academic-db-service.js:13-66 | a live cached list is served; otherwise the provider records merged in the order PubMed, DOAJ, CORE, BASE, de-duplicated by title and sorted by descending score with equal scores in merge order, are cached and returned |
| Performance.Recent | src/utils/performance.js:82 | no more times than stored, each after the window start |
| Performance.RecentOfRecent | src/utils/performance.js:82 | pruning twice with the same start equals pruning once |
| Performance.LimiterDecision | src/utils/performance.js:75-95 | allowed iff the identifier is new or fewer than `maxRequests` of its times lie after now − windowMs; its list becomes the recent times, plus `now` when allowed; no other identifier changes |
| Performance.FirstCallAllowed | src/utils/performance.js:88-94 | the first call of an unseen identifier is allowed, even with a limit of 0 |
| Performance.LimiterKeepsLimit | src/utils/performance.js:72-96 | with `maxRequests` ≥ 1 and a clock that does not go back, no identifier ever holds more than `maxRequests` times within a window |
| Performance.RateLimiter.constructor | src/utils/performance.js:72-73 | a limiter starts with no stored times |
| Performance.RateLimiter.Allow | src/utils/performance.js:75-95 | one call of the closure: the verdict and the new map are those of `LimiterStep` |
| Performance.RecordKeepsRecent | src/utils/performance.js:25-42 | a list holding the last 100 samples of its history still does after one more is recorded |
| Performance.PerformanceMonitor.constructor | src/utils/performance.js:7-10 | no metrics and no active timers |
| Performance.PerformanceMonitor.StartTimer | src/utils/performance.js:12-14 | the start time is recorded as the operation's active timer |
| Performance.PerformanceMonitor.End | src/utils/performance.js:16-21 | the duration now − start is recorded and the timer removed |
| Performance.PerformanceMonitor.RecordMetric | src/utils/performance.js:25-42 | the sample is appended and the oldest dropped beyond 100 |
| Performance.MinOf | src/utils/performance.js:57 | the minimum is a value of the list and bounds all of them |
| Performance.MaxOf | src/utils/performance.js:58 | the maximum is a value of the list and bounds all of them |
| Performance.SumBounds | src/utils/performance.js:52 | the sum lies between n·min and n·max |
| Performance.AverageBetween | src/utils/performance.js:56 | the rounded average lies between the minimum and the maximum |
| Performance.PerformanceMonitor.GetMetrics | src/utils/performance.js:44-61 | null iff the operation is unknown or has no samples; otherwise the count, the rounded average, the minimum, the maximum and the latest value |
| Performance.PerformanceMonitor.GetAllMetrics | src/utils/performance.js:63-69 | one entry per recorded operation, its `getMetrics` |
| Performance.BatchProcess | src/utils/performance.js:114-132 | one outcome per item in input order, and p pauses of `SEARCH_DELAY_MS` with p·batchSize < n <= (p + 1)·batchSize: one fewer than the chunks |
| Performance.CeilingDivision | src/utils/performance.js:114-132 | that pause count is ⌈n / batchSize⌉ − 1 |
| Arith.TimesIsProduct | src/utils/performance.js:117 | counting up in steps of the batch size reaches the product of steps and size |
| EnhancedFeatures.NavigationWraps | frontend/js/enhanced-features.js:98-103 | ArrowDown moves to (c + 1) mod n and other keys move back, wrapping to n − 1 at 0 or when nothing is focused; the result is in [0, n) |
| EnhancedFeatures.NavigationRoundTrip | frontend/js/enhanced-features.js:98-103 | from a focused card, down then up (or up then down) comes back to it |
| EnhancedFeatures.Focused | frontend/js/enhanced-features.js:105-108 | a focused index names one of the cards |
| EnhancedFeatures.TakesFirstLongLine | frontend/js/enhanced-features.js:152-156 | null iff no line is longer than 10 UTF-16 code units once trimmed; otherwise the first such line, untrimmed |
| EnhancedFeatures.ExtractsWholeLine | frontend/js/enhanced-features.js:152-156 | the query taken is one whole line of the text: long, and free of line breaks |
| EnhancedFeatures.SuggestionsMatch | frontend/js/enhanced-features.js:232-244 | at most five common terms, each containing the query ignoring case, in list order; with fewer than five, every matching term is there |
| EnhancedFeatures.EmptyQuerySuggestsFirstFive | frontend/js/enhanced-features.js:232-244 | the empty query suggests the first five terms |
| EnhancedFeatures.GetTopCategory | frontend/js/enhanced-features.js:487-504 | the nested loops and the reduction compute `TopCategory` of the history |
| EnhancedFeatures.TallyHistoryCounts | frontend/js/enhanced-features.js:494-501 | each category's count is the number of queries falling into it; the keys are distinct category names |
| EnhancedFeatures.ReduceFindsLatestMaximum | frontend/js/enhanced-features.js:503 | the reduction returns a key whose count no key exceeds and every later key falls short of |
| EnhancedFeatures.TopCategoryGeneral | frontend/js/enhanced-features.js:487-504 | 'General' iff no query falls into any category |
| EnhancedFeatures.TopCategoryMostSearched | frontend/js/enhanced-features.js:487-504 | otherwise a category with the largest count, ties going to the one first counted latest |
| EnhancedFeatures.RecentSearches.constructor | frontend/js/enhanced-features.js:520 | the list holds the stored entries |
| EnhancedFeatures.RecentSearches.CacheRecentSearches | frontend/js/enhanced-features.js:519-526 | stored iff there were more than 50 entries; the list becomes the last 50 |
| EnhancedFeatures.RecentSearchesKeepNewest | frontend/js/enhanced-features.js:522-523 | the kept entries are the newest 50, in order, after the removed oldest |
| Seqs.LastNIdempotent | src/utils/performance.js:37-39 | trimming to the last n twice equals trimming once |
| Strings.Utf16Length | src/utils/validation.js:14 | `length` counts UTF-16 code units: at least one and at most two per character |
| Strings.Utf16LengthOfBmp | src/utils/validation.js:14 | text without astral characters has as many code units as characters |
| Strings.Utf16LengthOfAstral | src/utils/validation.js:14 | text of astral characters has two code units per character |
| Strings.TrimIdempotent | src/utils/validation.js:9 | trimming is idempotent |
| Strings.JoinSplit | src/services/ai-service.js:122-123 | joining the pieces of a split with the separator gives back the text |

## Left out

- Network, AI and storage I/O are not performed. `fetch`, `response.json()`/`text()`, `env.AI.run` and `localStorage` are parameters: per-attempt outcomes, or the parsed JSON value.
- JSON decoding is not modelled. The provider bodies arrive already parsed into records with optional fields, and a body that cannot be decoded is a failed outcome.
- `Math.random`, `Date.now`, `new Date().toISOString()` and `getFullYear()` are parameters.
- IEEE double rounding is not modelled: scores and differences are exact reals. Two visible consequences: `PaperProcessor.Compare` finds 0.4 − 0.3 equal to 0.1, so citations decide, where the double difference 0.10000000000000003 lets relevance decide; and `draw * 0.4 + 0.6` stays below 1.0 for every draw below 1, whereas in doubles the largest draw 1 − 2⁻⁵³ gives exactly 1.0. The relevance bounds of ArxivService.BuiltFields, AcademicDbService.PubMedFields and AcademicDbService.MappedFields, [0.6, 1.0), are therefore bounds on exact reals.
- `generateRandomDate` and `simulateDelay` become a date function and skipped draws.
- Concurrency is modelled as sequential order. `Promise.allSettled` runs in launch order; sleeps (`delay`, `setTimeout`) are recorded as delay lists or omitted when nothing depends on them.
- `debounce`, `throttle`, `getMemoryUsage` and `createCacheMonitor` are left out: timers, environment probes and fields the cache does not provide.
- Logging (`logger.*`, `timer.end()` inside the services) is a no-op.
- HTTP routing, CORS, `Response` objects, `createSuccessResponse`, `validateJsonBody` and `validateAndHandle` are request plumbing outside this model. `createErrorResponse` is modelled by its body only.
- `getSearchStats` only copies configuration constants.
- `buildSearchUrl` and `encodeURIComponent` are left out. The encoded query is a parameter of the Scholar model.
- Strings are sequences of Unicode scalar values. JavaScript text holding an unpaired surrogate cannot be represented; every other string's `length` is `Strings.Utf16Length`.
- `toLowerCase` is ASCII-only; Unicode case mapping and the Unicode `\w` and `\s` classes beyond ASCII and the JavaScript white space set are left out.
- `new Date(text)` is reduced to a day number for `YYYY`, `YYYY-MM` and `YYYY-MM-DD` (optionally followed by a time). Other formats that JavaScript would parse are treated as invalid dates. Whatever follows a 'T' is not checked, so '2024-01-15Tnonsense' counts as 15 January 2024 here although `new Date` makes it an Invalid Date. Days are bounded by 1..31 only, not by the month's length: '2024-02-31' gets a day number of its own where JavaScript would roll it over to 2 March or reject it. The time of day is ignored: two dates of the same day are equal here. So two same-day papers with 0 citations (as arXiv papers have) and scores within 0.1 tie in `PaperProcessor.Compare` and keep their input order, where the source ranks the later timestamp first.
- PaperProcessor.SortPapers: `Array.prototype.sort` with an inconsistent comparator has an unspecified order. The model sorts stably by insertion. It promises a permutation with ordered neighbours, reversed pairs only where the comparator is strict, and tied papers in input order. It promises full order only when the comparator is transitive on the list.
- SearchService.SearchResearchPapers: the outer `catch` that returns [] is not modelled. Nothing in the modelled pipeline throws, so it cannot run.
- AcademicDbService.SearchPapers: the outer `catch` and the rejected `allSettled` branch are not modelled, because every provider catches its own errors.
- Performance.BatchProcess requires `batchSize > 0`. With 0 or less and a non-empty list the source loop never advances, so that case is not a terminating operation (with an empty list the source returns [] at once).
- Performance.PerformanceMonitor.StartTimer returns the start time, not a closure. `End` takes it back.
- `getMetrics` rounds with `Math.round` on whole-number values only; fractional metric values are not modelled.
- PaperProcessor.TallyPapers: source names are assumed not to be keys of `Object.prototype`. The source counts in a plain `{}`, so for a source such as 'constructor' `(stats.sources[source] || 0) + 1` yields the text 'function Object() { [native code] }1', and an assignment to '__proto__' is ignored; the model counts every source from 0.
- PaperProcessor.GetPaperStatistics: the same assumption on source names as TallyPapers, for the same `{}` source map.
- PaperProcessor.GroupPapersBySource: source names are assumed not to be keys of `Object.prototype`. For 'constructor', '__proto__', 'toString' and the like, `grouped[source]` is an inherited value that is truthy and has no `push`, so the source throws a TypeError; the model gives such a source its own group.
- A `Cache` stores values of one type per instance. The shared cache holding term lists, answer texts and paper lists is modelled with a sum type (`Cached`).
