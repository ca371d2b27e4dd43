/**
 * The arXiv provider of src/services/arxiv-service.js: a cached search whose
 * fetch is retried on failure, and a parser that turns the Atom feed into
 * papers by regular-expression matching. `responses(k)` is what the `k`-th
 * fetch yields, `today` the current date as YYYY-MM-DD and `draws(k)` the
 * `Math.random()` value drawn for the `k`-th paper parsed.
 */
module ArxivService {
  import opened Wrappers
  import opened Strings
  import Config
  import Caching
  import ErrorHandler
  import Http
  import PaperProcessor
  import Seqs
  import opened TextMatch
  import opened CachedValues

  type Paper = PaperProcessor.Paper

  const KeyPrefix := "arxiv"
  const ServiceName := "ArXiv"
  const EntryPattern := Span("<entry>", false, [], "</entry>")
  const TitleTag := Tag("<title>", false, '<', "</title>")
  const SummaryTag := Tag("<summary>", false, '<', "</summary>")
  const PublishedTag := Tag("<published>", false, '<', "</published>")
  const AuthorTag := Tag("<author><name>", false, '<', "</name></author>")
  const NameTag := Tag("<name>", false, '<', "</name>")
  const LinkTag := Tag("<link href=\"", false, '"', "\" rel=\"alternate\"")
  const IdTag := Tag("<id>", false, '<', "</id>")
  const AbsPrefix := "https://arxiv.org/abs/"
  const NoAbstract := "No abstract available"
  const UnknownAuthor := "Unknown Author"
  const Source := "arXiv"

  /** The author names: the group of every `<author><name>X</name></author>` match, in order. */
  function AuthorNames(entry: string): (names: seq<string>)
    ensures |names| == |All(entry, Capture(AuthorTag))|
  {
    var found := All(entry, Capture(AuthorTag));
    seq(|found|, i requires 0 <= i < |found| => found[i].groups[0])
  }

  /** What `parseEntry` reads from an entry: the group of each of its patterns, and the author names. */
  datatype EntryParts = EntryParts(
    title: Option<string>,
    summary: Option<string>,
    published: Option<string>,
    authors: seq<string>,
    id: Option<string>,
    link: Option<string>)

  function PartsOf(entry: string): EntryParts {
    EntryParts(Group(entry, TitleTag), Group(entry, SummaryTag), Group(entry, PublishedTag),
               AuthorNames(entry), Group(entry, IdTag), Group(entry, LinkTag))
  }

  /** The paper's url: the abstract page of the identifier's last '/'-segment, else the alternate link, else ''. */
  function UrlOf(id: Option<string>, link: Option<string>): string {
    var arxivId := if id.Some? then var parts := Split(id.value, '/'); parts[|parts| - 1] else "";
    if arxivId != "" then AbsPrefix + arxivId
    else if link.Some? then link.value
    else ""
  }

  /** The paper `parseEntry` builds from the parts of an entry: null without a title. */
  function Build(parts: EntryParts, today: string, draw: real): Option<Paper> {
    if parts.title.None? then None
    else Some(PaperProcessor.Paper(
      Trim(parts.title.value),
      if parts.summary.Some? then Trim(parts.summary.value) else NoAbstract,
      if |parts.authors| > 0 then parts.authors else [UnknownAuthor],
      if parts.published.Some? then parts.published.value else today,
      UrlOf(parts.id, parts.link),
      Source,
      0,
      draw * 0.4 + 0.6))
  }

  /** `parseEntry(entry)`. */
  function ParseEntry(entry: string, today: string, draw: real): Option<Paper> {
    Build(PartsOf(entry), today, draw)
  }

  /** An entry yields a paper exactly when it holds `<title>X</title>` with X non-empty and free of '<'. */
  lemma ParseEntryNullIff(entry: string, today: string, draw: real)
    ensures ParseEntry(entry, today, draw).Some? <==> exists x, i :: Occurrence(entry, TitleTag, x, i)
  {
    FindsIffOccurs(entry, TitleTag);
  }

  /** The properties every built paper has. */
  predicate WellBuilt(p: Paper) {
    && IsTrimmed(p.title)
    && (p.abstractText == NoAbstract || IsTrimmed(p.abstractText))
    && |p.authors| > 0
    && p.source == Source && p.citations == 0
  }

  /**
   * A parsed paper has a trimmed title, a trimmed summary or the stand-in
   * text, at least one author, source 'arXiv', no citations, and, for a draw
   * in [0, 1), a relevance in [0.6, 1.0).
   */
  lemma BuiltFields(parts: EntryParts, today: string, draw: real)
    requires Build(parts, today, draw).Some?
    ensures WellBuilt(Build(parts, today, draw).value)
    ensures 0.0 <= draw < 1.0 ==> 0.6 <= Build(parts, today, draw).value.relevanceScore < 1.0
  {
  }

  /** The author list holds the name of every author match, in document order, or 'Unknown Author' when there is none. */
  lemma AuthorsAreMatches(entry: string, today: string, draw: real)
    requires ParseEntry(entry, today, draw).Some?
    ensures var found := All(entry, Capture(AuthorTag));
      var authors := ParseEntry(entry, today, draw).value.authors;
      && (found == [] ==> authors == [UnknownAuthor])
      && (found != [] ==> |authors| == |found|)
      && (found != [] ==> forall k :: 0 <= k < |found| ==> Occurrence(entry, AuthorTag, authors[k], found[k].start))
  {
    var found := All(entry, Capture(AuthorTag));
    AllFromMatches(entry, Capture(AuthorTag), 0);
    forall k | 0 <= k < |found|
      ensures Occurrence(entry, AuthorTag, AuthorNames(entry)[k], found[k].start)
    {
      MatchIsOccurrence(entry, AuthorTag, found[k].start);
    }
  }

  /** Within the first eight characters of `<author>...`, no `<name>` starts. */
  lemma NoNameInAuthorTag(t: string)
    requires |t| >= 8 && t[..8] == "<author>"
    ensures forall i :: 0 <= i < 8 ==> !OccursAt(t, NameTag.open, i)
  {
    forall i | 0 <= i < 8
      ensures !OccursAt(t, NameTag.open, i)
    {
      if i + 6 <= |t| {
        if i == 0 {
          assert t[i..i + 6][1] == t[1] == t[..8][1] == 'a';
        } else {
          assert t[i..i + 6][0] == t[i] == t[..8][i] != '<';
        }
      }
    }
  }

  /** The name pattern finds, in an author match, the name that match captured. */
  lemma NameAfterAuthor(x: string)
    requires x != "" && '<' !in x
    ensures Group(AuthorTag.open + x + AuthorTag.close, NameTag) == Some(x)
  {
    var t := AuthorTag.open + x + AuthorTag.close;
    AuthorMatchLayout(x);
    OccurrenceMatches(t, NameTag, x, 8);
    NoNameInAuthorTag(t);
    forall j | 0 <= j < 8
      ensures MatchAt(t, Capture(NameTag), j).None?
    {
      assert OpenEnd(t, NameTag.open, false, j).None?;
    }
    FirstFromAt(t, Capture(NameTag), 0, 8);
  }

  /** An author match is `<author>`, then `<name>X</name>` at index 8, then `</author>`. */
  lemma AuthorMatchLayout(x: string)
    requires x != "" && '<' !in x
    ensures var t := AuthorTag.open + x + AuthorTag.close;
      |t| >= 8 && t[..8] == "<author>" && Occurrence(t, NameTag, x, 8)
  {
    var t := AuthorTag.open + x + AuthorTag.close;
    var w := NameTag.open + x + NameTag.close;
    assert AuthorTag.open == "<author>" + NameTag.open;
    assert AuthorTag.close == NameTag.close + "</author>";
    assert t == "<author>" + w + "</author>";
    OccurrenceParts(t, "<author>", w, "</author>", 0);
    assert t[..8] == t[0..0 + |"<author>"|];
  }

  /**
   * Reading the name back out of an author match, as `a.match(/<name>([^<]+)<\/name>/)[1]`
   * does, gives the group of that match.
   */
  lemma NameOfAuthorMatch(entry: string, m: Match)
    requires MatchAt(entry, Capture(AuthorTag), m.start) == Some(m)
    ensures Group(m.text, NameTag) == Some(m.groups[0])
  {
    MatchIsOccurrence(entry, AuthorTag, m.start);
    NameAfterAuthor(m.groups[0]);
  }

  /** The url of an identifier `.../seg` with a non-empty last segment is that segment's abstract page. */
  lemma UrlFromId(path: string, seg: string, link: Option<string>)
    requires seg != "" && '/' !in seg
    ensures UrlOf(Some(path + "/" + seg), link) == AbsPrefix + seg
  {
    SplitLastPiece(path, '/', seg);
  }

  /** An identifier without '/' is its own last segment. */
  lemma UrlFromPlainId(id: string, link: Option<string>)
    requires id != "" && '/' !in id
    ensures UrlOf(Some(id), link) == AbsPrefix + id
  {
    SplitWithoutSeparator(id, '/');
  }

  /** Without an identifier, or with one ending in '/', the url is the alternate link, or '' without one. */
  lemma UrlWithoutId(id: Option<string>, path: string, link: Option<string>)
    requires id.None? || id == Some(path + "/")
    ensures link.Some? ==> UrlOf(id, link) == link.value
    ensures link.None? ==> UrlOf(id, link) == ""
  {
    if id.Some? {
      assert path + "/" == path + ['/'] + "";
      SplitLastPiece(path, '/', "");
    }
  }

  /** The texts of the shortest `<entry>...</entry>` blocks, in document order. */
  function EntryTexts(xml: string): seq<string> {
    var found := All(xml, EntryPattern);
    seq(|found|, i requires 0 <= i < |found| => found[i].text)
  }

  /** `parseEntry` with the `k`-th draw for the `k`-th paper kept. */
  function EntryParser(today: string, draws: nat -> real): (string, nat) -> Option<Paper> {
    (entry: string, k: nat) => ParseEntry(entry, today, draws(k))
  }

  /** The papers of an arXiv feed: each entry parsed in document order, entries without a title skipped. */
  function ParseFeed(xml: string, today: string, draws: nat -> real): (papers: seq<Paper>)
    ensures |papers| <= |All(xml, EntryPattern)|
  {
    Seqs.Collect(EntryTexts(xml), EntryParser(today, draws), 0)
  }

  /** Every paper of a feed has the fields `BuiltFields` promises; with draws in [0, 1), a relevance in [0.6, 1.0). */
  lemma FeedFields(xml: string, today: string, draws: nat -> real)
    requires forall k: nat :: 0.0 <= draws(k) < 1.0
    ensures forall p :: p in ParseFeed(xml, today, draws) ==> WellBuilt(p) && 0.6 <= p.relevanceScore < 1.0
  {
    var parse := EntryParser(today, draws);
    forall entry, k | parse(entry, k).Some?
      ensures WellBuilt(parse(entry, k).value) && 0.6 <= parse(entry, k).value.relevanceScore < 1.0
    {
      BuiltFields(PartsOf(entry), today, draws(k));
    }
    Seqs.CollectAll(EntryTexts(xml), parse, 0, (p: Paper) => WellBuilt(p) && 0.6 <= p.relevanceScore < 1.0);
  }

  /** `parseArxivXML`: each entry parsed in turn, the papers pushed in document order. */
  method ParseArxivXML(xml: string, today: string, draws: nat -> real) returns (papers: seq<Paper>)
    ensures papers == ParseFeed(xml, today, draws)
  {
    papers := Seqs.CollectEach(EntryTexts(xml), EntryParser(today, draws));
  }

  /** The operation `fetchWithRetry` retries: the `k`-th fetch, thrown unless its status is 2xx. */
  function FetchAttempt(responses: nat -> Http.Outcome<string>): nat -> Result<Option<string>, string> {
    (k: nat) => Http.Checked(ServiceName, responses(k))
  }

  /** What `fetchWithRetry` returns or throws, the attempts it makes and the backoff waits. */
  function FetchWithRetry(responses: nat -> Http.Outcome<string>): ErrorHandler.RetryTrace<Option<string>, string> {
    ErrorHandler.Retry(FetchAttempt(responses), Config.MaxRetries, Config.RetryDelayMs)
  }

  /** A response that is not ok is retried: two failing statuses then an ok one give the third body, after waits of 1 and 2 seconds. */
  lemma FetchRetriesBadStatus(responses: nat -> Http.Outcome<string>)
    requires responses(1).Response? && !Http.Ok(responses(1).status)
    requires responses(2).Response? && !Http.Ok(responses(2).status)
    requires responses(3).Response? && Http.Ok(responses(3).status)
    ensures FetchWithRetry(responses) == ErrorHandler.RetryTrace(Success(responses(3).body), 3, [1000, 2000])
  {
    var op := FetchAttempt(responses);
    assert op(1).Failure? && op(2).Failure? && op(3) == Success(responses(3).body);
    assert ErrorHandler.Pow2(1) == 2;
  }

  /** When every attempt gets a bad status the error of the third is thrown, after three attempts. */
  lemma FetchGivesUp(responses: nat -> Http.Outcome<string>)
    requires forall k :: 1 <= k <= 3 ==> responses(k).Response? && !Http.Ok(responses(k).status)
    ensures FetchWithRetry(responses).result == Failure(Some(ServiceName + " API error: " + IntToString(responses(3).status)))
    ensures FetchWithRetry(responses).attempts == Config.MaxRetries
  {
    var op := FetchAttempt(responses);
    assert forall k :: 1 <= k <= 3 ==> op(k).Failure?;
    ErrorHandler.RetryOutcome(op, Config.MaxRetries, Config.RetryDelayMs);
  }

  /** What the `try` block of `searchPapers` yields: the parsed papers, or `None` when it throws. */
  function Fetched(fetch: Result<Option<string>, Option<string>>, today: string, draws: nat -> real): Option<seq<Paper>> {
    if fetch.Success? && fetch.value.Some? then Some(ParseFeed(fetch.value.value, today, draws))
    else None
  }

  /**
   * `searchPapers` on a cache holding `st`: the papers returned and the cache
   * afterwards. The cache is read at `now` and written at `writeNow`, after the
   * fetch and its retries.
   */
  function SearchFlow(st: Caching.Store<Cached>, query: string, responses: nat -> Http.Outcome<string>, today: string,
                      draws: nat -> real, now: int, writeNow: int, maxEntries: int, ttlSeconds: int)
    : (seq<Paper>, Caching.Store<Cached>)
  {
    PaperFlow(st, Caching.GenerateKey(KeyPrefix, [query]), Fetched(FetchWithRetry(responses).result, today, draws),
              now, writeNow, maxEntries, ttlSeconds)
  }

  /** On a miss with the service down (every status bad) the search returns no papers and caches nothing. */
  lemma SearchWhenDown(st: Caching.Store<Cached>, query: string, responses: nat -> Http.Outcome<string>, today: string,
                       draws: nat -> real, now: int, writeNow: int, maxEntries: int, ttlSeconds: int)
    requires Caching.Lookup(st, Caching.GenerateKey(KeyPrefix, [query]), now).0.None?
    requires forall k :: 1 <= k <= 3 ==> responses(k).Response? && !Http.Ok(responses(k).status)
    ensures SearchFlow(st, query, responses, today, draws, now, writeNow, maxEntries, ttlSeconds)
            == ([], Caching.Lookup(st, Caching.GenerateKey(KeyPrefix, [query]), now).1)
  {
    FetchGivesUp(responses);
    PaperFlowFailure(st, Caching.GenerateKey(KeyPrefix, [query]), now, writeNow, maxEntries, ttlSeconds);
  }

  /** `searchPapers(query)`: the cache first, then the retried fetch, the parse and the cache write; a failure gives no papers. */
  method SearchPapers(cache: Caching.Cache<Cached>, query: string, responses: nat -> Http.Outcome<string>,
                      today: string, draws: nat -> real, now: int, writeNow: int) returns (papers: seq<Paper>)
    requires cache.Valid()
    modifies cache
    ensures cache.Valid()
    ensures (papers, cache.Contents())
         == SearchFlow(old(cache.Contents()), query, responses, today, draws, now, writeNow, cache.maxEntries,
                       cache.ttlSeconds)
  {
    ghost var st := cache.Contents();
    var key := Caching.GenerateKey(KeyPrefix, [query]);
    var cached := cache.Get(key, now);
    if cached.Some? && Truthy(cached.value) && cached.value.PaperList? {
      return cached.value.papers;
    }
    var response, _, _ := ErrorHandler.WithRetry(FetchAttempt(responses), Config.MaxRetries, Config.RetryDelayMs);
    if response.Success? && response.value.Some? {
      papers := ParseArxivXML(response.value.value, today, draws);
      cache.Set(key, PaperList(papers), Some(Config.CacheTtlSeconds), writeNow);
    } else {
      papers := [];
    }
  }
}
