/**
 * The values the services keep in the one shared cache: search-term lists,
 * paper lists, AI response texts, and `undefined` where the model's result
 * had no `response` field. Each service writes its own kind under
 * its own key prefix, with the one-hour time to live `CACHE_TTL_SECONDS`.
 */
module CachedValues {
  import opened Wrappers
  import Config
  import Caching
  import PaperProcessor

  datatype Cached =
    | TermList(terms: seq<string>)
    | PaperList(papers: seq<PaperProcessor.Paper>)
    | Text(text: string)
    | Undefined

  /** `if (cached)`: an array is always truthy, a text only when it is not empty, `undefined` never. */
  predicate Truthy(c: Cached) {
    !c.Undefined? && (!c.Text? || c.text != "")
  }

  /** The expiry time of a write made at `now` with the one-hour time to live. */
  function ExpiryOfWrite(now: int, ttlSeconds: int): int {
    now + Caching.EffectiveTtl(Some(Config.CacheTtlSeconds), ttlSeconds) * 1000
  }

  /** The paper list `if (cached) return cached;` serves for `key`, if any. */
  function CachedPapers(st: Caching.Store<Cached>, key: string, now: int): Option<seq<PaperProcessor.Paper>> {
    var hit := Caching.Lookup(st, key, now).0;
    if hit.Some? && Truthy(hit.value) && hit.value.PaperList? then Some(hit.value.papers) else None
  }

  /**
   * A paper search behind the cache, as the arXiv, Scholar and academic
   * database services run it: a cached list is served; on a miss `fetched` is
   * the list the search produced (`None` when it threw), which is cached and
   * returned; a failed search returns no papers. `now` is the clock when the
   * cache is read and `writeNow` the clock when `set` runs, after the search.
   * The result is the papers and the cache afterwards.
   */
  function PaperFlow(st: Caching.Store<Cached>, key: string, fetched: Option<seq<PaperProcessor.Paper>>,
                     now: int, writeNow: int, maxEntries: int, ttlSeconds: int)
    : (seq<PaperProcessor.Paper>, Caching.Store<Cached>)
  {
    var st1 := Caching.Lookup(st, key, now).1;
    var served := CachedPapers(st, key, now);
    if served.Some? then (served.value, st1)
    else if fetched.Some? then
      (fetched.value, Caching.Insert(st1, key, PaperList(fetched.value), ExpiryOfWrite(writeNow, ttlSeconds), maxEntries))
    else ([], st1)
  }

  /** A live cached list is returned without searching, and the cache is left as it was. */
  lemma PaperFlowHit(st: Caching.Store<Cached>, key: string, fetched: Option<seq<PaperProcessor.Paper>>,
                     now: int, writeNow: int, maxEntries: int, ttlSeconds: int, papers: seq<PaperProcessor.Paper>)
    requires Caching.Lookup(st, key, now).0 == Some(PaperList(papers))
    ensures PaperFlow(st, key, fetched, now, writeNow, maxEntries, ttlSeconds) == (papers, st)
  {
  }

  /**
   * On a miss the search result is returned, and reading the key returns it
   * until one hour after the write, which happens once the search is done.
   */
  lemma PaperFlowStores(st: Caching.Store<Cached>, key: string, papers: seq<PaperProcessor.Paper>,
                        now: int, writeNow: int, maxEntries: int, ttlSeconds: int, later: int)
    requires Caching.Lookup(st, key, now).0.None?
    requires writeNow <= later <= ExpiryOfWrite(writeNow, ttlSeconds)
    ensures PaperFlow(st, key, Some(papers), now, writeNow, maxEntries, ttlSeconds).0 == papers
    ensures Caching.Lookup(PaperFlow(st, key, Some(papers), now, writeNow, maxEntries, ttlSeconds).1, key, later).0
            == Some(PaperList(papers))
  {
    var st1 := Caching.Lookup(st, key, now).1;
    var ttl := Caching.EffectiveTtl(Some(Config.CacheTtlSeconds), ttlSeconds);
    assert PaperFlow(st, key, Some(papers), now, writeNow, maxEntries, ttlSeconds).1
        == Caching.Insert(st1, key, PaperList(papers), writeNow + ttl * 1000, maxEntries);
    Caching.SetThenGet(st1, key, PaperList(papers), writeNow, ttl, maxEntries, later);
  }

  /** On a miss a failed search gives no papers and writes nothing: the cache only loses what the read expired. */
  lemma PaperFlowFailure(st: Caching.Store<Cached>, key: string, now: int, writeNow: int, maxEntries: int,
                         ttlSeconds: int)
    requires Caching.Lookup(st, key, now).0.None?
    ensures PaperFlow(st, key, None, now, writeNow, maxEntries, ttlSeconds) == ([], Caching.Lookup(st, key, now).1)
    ensures key !in PaperFlow(st, key, None, now, writeNow, maxEntries, ttlSeconds).1.entries
  {
  }
}
