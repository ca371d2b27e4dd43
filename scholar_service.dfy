/**
 * The simulated Google Scholar provider of src/services/scholar-service.js:
 * four papers expanded from fixed templates around the query, behind the
 * shared cache. `draws(k)` is the `k`-th value `Math.random()` returns in the
 * call, `dateOf(r)` the date `generateRandomDate` derives from the draw `r`
 * (a day up to two years back from the clock), and `encoded` the text
 * `encodeURIComponent(query)` produces.
 */
module ScholarService {
  import opened Wrappers
  import opened Strings
  import Config
  import Caching
  import PaperProcessor
  import opened CachedValues

  type Paper = PaperProcessor.Paper

  const KeyPrefix := "scholar"
  const Source := "Google Scholar"
  const UrlLead := "https://scholar.google.com/scholar?q="
  const StartParameter := "&start="
  const AbstractLead := "This paper presents a comprehensive study on "
  const AbstractMiddle := ", exploring various methodologies and approaches in the field. The research demonstrates significant advances in understanding and application of "
  const AbstractEnd := " principles."

  /** A paper template: the title around the query, the authors, and citations `floor(r * spread) + base`. */
  datatype Template = Template(titleLead: string, titleEnd: string, authors: seq<string>, spread: int, base: int)

  const Templates: seq<Template> := [
    Template("Recent Advances in ", "", ["Dr. Jane Smith", "Prof. John Doe"], 200, 10),
    Template("", ": A Comprehensive Review", ["Dr. Alice Johnson", "Dr. Bob Wilson"], 150, 5),
    Template("Novel Approaches to ", "", ["Prof. Carol Brown"], 100, 1),
    Template("Machine Learning Applications in ", "", ["Dr. David Lee", "Dr. Emma Davis"], 300, 20)
  ]

  /** `Math.floor(r * spread) + base`. */
  function Citations(t: Template, r: real): int {
    (r * t.spread as real).Floor + t.base
  }

  /** The abstract shared by every generated paper, naming the query twice. */
  function MockAbstract(query: string): string {
    AbstractLead + query + AbstractMiddle + query + AbstractEnd
  }

  /**
   * The paper generated from template `index`. Its citations take draw
   * `index` (the templates draw first, in order); the map over the templates
   * then draws a date and a relevance per paper, in that order.
   */
  function MockPaper(query: string, encoded: string, index: nat, draws: nat -> real, dateOf: real -> string): Paper
    requires index < |Templates|
  {
    var t := Templates[index];
    PaperProcessor.Paper(
      t.titleLead + query + t.titleEnd,
      MockAbstract(query),
      t.authors,
      dateOf(draws(|Templates| + 2 * index)),
      UrlLead + encoded + StartParameter + NatToString(index),
      Source,
      Citations(t, draws(index)),
      draws(|Templates| + 2 * index + 1) * 0.3 + 0.7)
  }

  /** `generateMockPapers(query)`: the templates mapped to papers, in order. */
  function GenerateMockPapers(query: string, encoded: string, draws: nat -> real, dateOf: real -> string): (papers: seq<Paper>)
    ensures |papers| == |Templates| == 4
  {
    seq(|Templates|, i requires 0 <= i < |Templates| => MockPaper(query, encoded, i, draws, dateOf))
  }

  /**
   * The generated papers come in template order from Google Scholar; paper i
   * has url start=i after the encoded query, and its title and abstract hold
   * the query verbatim.
   */
  lemma MockPapersShape(query: string, encoded: string, draws: nat -> real, dateOf: real -> string)
    ensures var papers := GenerateMockPapers(query, encoded, draws, dateOf);
      forall i :: 0 <= i < |papers| ==>
        && papers[i].source == Source
        && papers[i].authors == Templates[i].authors
        && papers[i].url == UrlLead + encoded + StartParameter + NatToString(i)
        && Contains(papers[i].title, query)
        && Contains(papers[i].abstractText, query)
  {
    var papers := GenerateMockPapers(query, encoded, draws, dateOf);
    forall i | 0 <= i < |papers|
      ensures Contains(papers[i].title, query) && Contains(papers[i].abstractText, query)
    {
      EmbedsQuery(Templates[i].titleLead, query, Templates[i].titleEnd);
      EmbedsQuery(AbstractLead, query, AbstractMiddle + query + AbstractEnd);
      assert MockAbstract(query) == AbstractLead + query + (AbstractMiddle + query + AbstractEnd);
    }
  }

  /** A text built around the query contains it. */
  lemma EmbedsQuery(lead: string, query: string, rest: string)
    ensures Contains(lead + query + rest, query)
  {
    assert (lead + query + rest)[|lead|..|lead| + |query|] == query;
    assert OccursAt(lead + query + rest, query, |lead|);
  }

  /** The citation range of a template for a draw in [0, 1): from `base` to `base + spread - 1`. */
  lemma CitationsRange(t: Template, r: real)
    requires 0.0 <= r < 1.0 && t.spread > 0
    ensures t.base <= Citations(t, r) <= t.base + t.spread - 1
  {
    var x := r * t.spread as real;
    assert 0.0 <= x < t.spread as real;
  }

  /**
   * With draws in [0, 1) the citations of the four papers lie in [10, 209],
   * [5, 154], [1, 100] and [20, 319], and every relevance in [0.7, 1.0).
   */
  lemma MockPapersRanges(query: string, encoded: string, draws: nat -> real, dateOf: real -> string)
    requires forall k: nat :: 0.0 <= draws(k) < 1.0
    ensures var papers := GenerateMockPapers(query, encoded, draws, dateOf);
      && 10 <= papers[0].citations <= 209
      && 5 <= papers[1].citations <= 154
      && 1 <= papers[2].citations <= 100
      && 20 <= papers[3].citations <= 319
      && forall i :: 0 <= i < |papers| ==> 0.7 <= papers[i].relevanceScore < 1.0
  {
    CitationsRange(Templates[0], draws(0));
    CitationsRange(Templates[1], draws(1));
    CitationsRange(Templates[2], draws(2));
    CitationsRange(Templates[3], draws(3));
  }

  /** With draws in [0, 1) every generated paper passes `validatePaper`, whatever the query. */
  lemma MockPapersValid(query: string, encoded: string, draws: nat -> real, dateOf: real -> string)
    requires forall k: nat :: 0.0 <= draws(k) < 1.0
    ensures forall p :: p in GenerateMockPapers(query, encoded, draws, dateOf) ==> PaperProcessor.ValidatePaper(PaperProcessor.ToRecord(p))
  {
    MockPapersRanges(query, encoded, draws, dateOf);
    var papers := GenerateMockPapers(query, encoded, draws, dateOf);
    forall i | 0 <= i < |papers|
      ensures |papers[i].title| > 0
    {
      assert |Templates[i].titleLead| + |Templates[i].titleEnd| > 0;
    }
  }

  /** The draws after the first, which `simulateDelay` takes before the papers are generated. */
  function AfterDelay(draws: nat -> real): nat -> real {
    (k: nat) => draws(k + 1)
  }

  /**
   * `searchPapers` on a cache holding `st`: the cached papers, or the generated
   * ones, cached. The cache is read at `now` and written at `writeNow`, after
   * the simulated delay.
   */
  function SearchFlow(st: Caching.Store<Cached>, query: string, encoded: string, draws: nat -> real,
                      dateOf: real -> string, now: int, writeNow: int, maxEntries: int, ttlSeconds: int)
    : (seq<Paper>, Caching.Store<Cached>)
  {
    PaperFlow(st, Caching.GenerateKey(KeyPrefix, [query]),
              Some(GenerateMockPapers(query, encoded, AfterDelay(draws), dateOf)), now, writeNow, maxEntries, ttlSeconds)
  }

  /** On a miss the search returns the four generated papers, and reading the key returns them until they expire. */
  lemma SearchOnMiss(st: Caching.Store<Cached>, query: string, encoded: string, draws: nat -> real,
                     dateOf: real -> string, now: int, writeNow: int, maxEntries: int, ttlSeconds: int, later: int)
    requires Caching.Lookup(st, Caching.GenerateKey(KeyPrefix, [query]), now).0.None?
    requires writeNow <= later <= ExpiryOfWrite(writeNow, ttlSeconds)
    ensures var (papers, st') := SearchFlow(st, query, encoded, draws, dateOf, now, writeNow, maxEntries, ttlSeconds);
      && papers == GenerateMockPapers(query, encoded, AfterDelay(draws), dateOf)
      && |papers| == 4
      && Caching.Lookup(st', Caching.GenerateKey(KeyPrefix, [query]), later).0 == Some(PaperList(papers))
  {
    PaperFlowStores(st, Caching.GenerateKey(KeyPrefix, [query]),
                    GenerateMockPapers(query, encoded, AfterDelay(draws), dateOf), now, writeNow, maxEntries, ttlSeconds,
                    later);
  }

  /** `searchPapers(query)`: the cache first, then the simulated delay, the generated papers and the cache write. */
  method SearchPapers(cache: Caching.Cache<Cached>, query: string, encoded: string, draws: nat -> real,
                      dateOf: real -> string, now: int, writeNow: int) returns (papers: seq<Paper>)
    requires cache.Valid()
    modifies cache
    ensures cache.Valid()
    ensures (papers, cache.Contents())
         == SearchFlow(old(cache.Contents()), query, encoded, draws, dateOf, now, writeNow, cache.maxEntries,
                       cache.ttlSeconds)
  {
    var key := Caching.GenerateKey(KeyPrefix, [query]);
    var cached := cache.Get(key, now);
    if cached.Some? && Truthy(cached.value) && cached.value.PaperList? {
      return cached.value.papers;
    }
    papers := GenerateMockPapers(query, encoded, AfterDelay(draws), dateOf);
    cache.Set(key, PaperList(papers), Some(Config.CacheTtlSeconds), writeNow);
  }

  /** `searchWithScraping(query)`: the generated papers, with no delay drawn first. */
  method SearchWithScraping(query: string, encoded: string, draws: nat -> real, dateOf: real -> string)
    returns (papers: seq<Paper>)
    ensures papers == GenerateMockPapers(query, encoded, draws, dateOf)
    ensures |papers| == 4 && forall p :: p in papers ==> p.source == Source
  {
    papers := GenerateMockPapers(query, encoded, draws, dateOf);
    MockPapersShape(query, encoded, draws, dateOf);
  }

  /** `searchWithAPI(query)`: the same generated papers. */
  method SearchWithApi(query: string, encoded: string, draws: nat -> real, dateOf: real -> string)
    returns (papers: seq<Paper>)
    ensures papers == GenerateMockPapers(query, encoded, draws, dateOf)
    ensures |papers| == 4 && forall p :: p in papers ==> p.source == Source
  {
    papers := GenerateMockPapers(query, encoded, draws, dateOf);
    MockPapersShape(query, encoded, draws, dateOf);
  }
}
