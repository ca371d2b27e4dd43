/**
 * The orchestrator of src/services/search-service.js. Each search term goes
 * to arXiv and then to the simulated Google Scholar provider; the papers of
 * the first three terms are concatenated in term order, processed and cut to
 * twenty. The terms are searched concurrently in the source, and
 * `Promise.allSettled` reports them in launch order; the model searches them
 * one after the other, in that order.
 */
module SearchService {
  import opened Wrappers
  import Strings
  import Config
  import Caching
  import Http
  import Seqs
  import ArraySort
  import PaperProcessor
  import ArxivService
  import ScholarService
  import opened CachedValues

  type Paper = PaperProcessor.Paper

  /**
   * What the world supplies while one term is searched: the arXiv responses,
   * the random draws, and the clock each provider reads its cache at (`…Now`)
   * and writes it at (`…WriteNow`, after its search).
   */
  datatype TermInputs = TermInputs(
    arxivResponses: nat -> Http.Outcome<string>,
    arxivDraws: nat -> real,
    arxivNow: int,
    arxivWriteNow: int,
    encodedTerm: string,
    scholarDraws: nat -> real,
    scholarNow: int,
    scholarWriteNow: int)

  /** `searchTerm(term)` on a cache holding `st`: the arXiv papers followed by the Scholar papers. */
  function TermFlow(st: Caching.Store<Cached>, term: string, env: TermInputs, today: string, dateOf: real -> string,
                    maxEntries: int, ttlSeconds: int): (seq<Paper>, Caching.Store<Cached>)
  {
    var arxiv := ArxivService.SearchFlow(st, term, env.arxivResponses, today, env.arxivDraws, env.arxivNow,
                                         env.arxivWriteNow, maxEntries, ttlSeconds);
    var scholar := ScholarService.SearchFlow(arxiv.1, term, env.encodedTerm, env.scholarDraws, dateOf, env.scholarNow,
                                             env.scholarWriteNow, maxEntries, ttlSeconds);
    (arxiv.0 + scholar.0, scholar.1)
  }

  /**
   * `searchTerm(term)`. Neither provider lets an error escape, so the catch
   * that would discard the arXiv papers never runs.
   */
  method SearchTerm(cache: Caching.Cache<Cached>, term: string, env: TermInputs, today: string, dateOf: real -> string)
    returns (papers: seq<Paper>)
    requires cache.Valid()
    modifies cache
    ensures cache.Valid()
    ensures (papers, cache.Contents())
         == TermFlow(old(cache.Contents()), term, env, today, dateOf, cache.maxEntries, cache.ttlSeconds)
  {
    var arxivPapers := ArxivService.SearchPapers(cache, term, env.arxivResponses, today, env.arxivDraws, env.arxivNow,
                                                 env.arxivWriteNow);
    var scholarPapers := ScholarService.SearchPapers(cache, term, env.encodedTerm, env.scholarDraws, dateOf, env.scholarNow,
                                                     env.scholarWriteNow);
    papers := arxivPapers + scholarPapers;
  }

  /**
   * A term whose arXiv search fails (every status bad) and whose keys are not
   * cached still yields the four Scholar papers: the failed provider only
   * contributes nothing.
   */
  lemma TermWithArxivDown(st: Caching.Store<Cached>, term: string, env: TermInputs, today: string,
                          dateOf: real -> string, maxEntries: int, ttlSeconds: int)
    requires Caching.Lookup(st, Caching.GenerateKey(ArxivService.KeyPrefix, [term]), env.arxivNow).0.None?
    requires forall k :: 1 <= k <= 3 ==> env.arxivResponses(k).Response? && !Http.Ok(env.arxivResponses(k).status)
    requires Caching.Lookup(st, Caching.GenerateKey(ScholarService.KeyPrefix, [term]), env.scholarNow).0.None?
    ensures TermFlow(st, term, env, today, dateOf, maxEntries, ttlSeconds).0
         == ScholarService.GenerateMockPapers(term, env.encodedTerm, ScholarService.AfterDelay(env.scholarDraws), dateOf)
  {
    var arxivKey := Caching.GenerateKey(ArxivService.KeyPrefix, [term]);
    var scholarKey := Caching.GenerateKey(ScholarService.KeyPrefix, [term]);
    ArxivService.SearchWhenDown(st, term, env.arxivResponses, today, env.arxivDraws, env.arxivNow, env.arxivWriteNow,
                                maxEntries, ttlSeconds);
    var st1 := Caching.Lookup(st, arxivKey, env.arxivNow).1;
    Caching.GenerateKeyPrefixesSeparate(ArxivService.KeyPrefix, [term], ScholarService.KeyPrefix, [term]);
    assert Caching.Lookup(st1, scholarKey, env.scholarNow).0.None?;
    ScholarService.SearchOnMiss(st1, term, env.encodedTerm, env.scholarDraws, dateOf, env.scholarNow,
                                env.scholarWriteNow, maxEntries, ttlSeconds, env.scholarWriteNow);
  }

  /** `searchTerm` as a step over the cache: the `k`-th term is searched with inputs `envs(k)`. */
  function TermStep(envs: nat -> TermInputs, today: string, dateOf: real -> string, maxEntries: int, ttlSeconds: int)
    : (Caching.Store<Cached>, string, nat) -> (seq<Paper>, Caching.Store<Cached>)
  {
    (st: Caching.Store<Cached>, term: string, k: nat) => TermFlow(st, term, envs(k), today, dateOf, maxEntries, ttlSeconds)
  }

  /** The terms searched one after the other, the papers concatenated in term order. */
  function TermsFlow(st: Caching.Store<Cached>, terms: seq<string>, envs: nat -> TermInputs, today: string,
                     dateOf: real -> string, maxEntries: int, ttlSeconds: int): (seq<Paper>, Caching.Store<Cached>)
  {
    Seqs.ConcatThread(st, terms, TermStep(envs, today, dateOf, maxEntries, ttlSeconds), 0)
  }

  /**
   * Later terms never suppress earlier ones: the papers for `terms + [t]` are
   * those for `terms` followed by what `t` found in the cache the earlier
   * terms left behind.
   */
  lemma LaterTermKeepsEarlierPapers(st: Caching.Store<Cached>, terms: seq<string>, t: string, envs: nat -> TermInputs,
                                    today: string, dateOf: real -> string, maxEntries: int, ttlSeconds: int)
    ensures var before := TermsFlow(st, terms, envs, today, dateOf, maxEntries, ttlSeconds);
      var last := TermFlow(before.1, t, envs(|terms|), today, dateOf, maxEntries, ttlSeconds);
      TermsFlow(st, terms + [t], envs, today, dateOf, maxEntries, ttlSeconds) == (before.0 + last.0, last.1)
  {
    var step := TermStep(envs, today, dateOf, maxEntries, ttlSeconds);
    var before := TermsFlow(st, terms, envs, today, dateOf, maxEntries, ttlSeconds);
    assert before == Seqs.ConcatThread(st, terms, step, 0);
    TermStepIsTermFlow(envs, today, dateOf, maxEntries, ttlSeconds, before.1, t, |terms|);
    Seqs.ConcatThreadAppend(st, terms, t, step, 0);
    assert TermsFlow(st, terms + [t], envs, today, dateOf, maxEntries, ttlSeconds)
        == Seqs.ConcatThread(st, terms + [t], step, 0);
  }

  /** The step for the term at index `k` is `searchTerm` run with that term's inputs. */
  lemma TermStepIsTermFlow(envs: nat -> TermInputs, today: string, dateOf: real -> string, maxEntries: int,
                           ttlSeconds: int, st: Caching.Store<Cached>, t: string, k: nat)
    ensures TermStep(envs, today, dateOf, maxEntries, ttlSeconds)(st, t, k)
         == TermFlow(st, t, envs(k), today, dateOf, maxEntries, ttlSeconds)
  {
  }

  function Records(papers: seq<Paper>): (r: seq<PaperProcessor.PaperRecord>)
    ensures |r| == |papers|
  {
    seq(|papers|, i requires 0 <= i < |papers| => PaperProcessor.ToRecord(papers[i]))
  }

  /** The papers `processPapers` starts from once invalid ones are dropped and duplicates removed. */
  function Candidates(papers: seq<Paper>, today: string): seq<Paper> {
    Seqs.Dedupe(PaperProcessor.Prepare(Records(papers), today), PaperProcessor.GeneratePaperKey)
  }

  /** The loop of `searchResearchPapers` over the terms it keeps: each term searched in turn, the papers appended. */
  method SearchTerms(cache: Caching.Cache<Cached>, terms: seq<string>, envs: nat -> TermInputs, today: string,
                     dateOf: real -> string) returns (allPapers: seq<Paper>)
    requires cache.Valid()
    modifies cache
    ensures cache.Valid()
    ensures (allPapers, cache.Contents())
         == TermsFlow(old(cache.Contents()), terms, envs, today, dateOf, cache.maxEntries, cache.ttlSeconds)
  {
    ghost var step := TermStep(envs, today, dateOf, cache.maxEntries, cache.ttlSeconds);
    ghost var whole := Seqs.ConcatThread(cache.Contents(), terms, step, 0);
    allPapers := [];
    var i := 0;
    assert terms[i..] == terms;
    assert allPapers + whole.0 == whole.0;
    while i < |terms|
      invariant 0 <= i <= |terms|
      invariant cache.Valid()
      invariant (allPapers + Seqs.ConcatThread(cache.Contents(), terms[i..], step, i).0,
                 Seqs.ConcatThread(cache.Contents(), terms[i..], step, i).1) == whole
    {
      Seqs.ConcatThreadStep(cache.Contents(), terms, i, step, allPapers, whole);
      ghost var before := cache.Contents();
      var found := SearchTerm(cache, terms[i], envs(i), today, dateOf);
      assert step(before, terms[i], i) == (found, cache.Contents());
      allPapers := allPapers + found;
      i := i + 1;
    }
    assert terms[i..] == [];
    assert allPapers + [] == allPapers;
  }

  /**
   * `searchResearchPapers(searchTerms)`: the first three terms are searched in
   * order and their papers processed and cut to twenty. `processed` is the
   * ranked list `processPapers` returns: a reordering of the de-duplicated
   * valid papers found, neighbours in ranking order, fully ordered wherever
   * the comparator is transitive on it, with tied papers in the order they
   * were found (`perm` maps each to its place among the candidates). The
   * result is its first twenty.
   * `today` is the current date the enrichment step falls back to.
   * Processing throws nothing, so the catch that would answer [] never runs.
   */
  method SearchResearchPapers(cache: Caching.Cache<Cached>, searchTerms: seq<string>, envs: nat -> TermInputs,
                              today: string, dateOf: real -> string)
    returns (papers: seq<Paper>, ghost processed: seq<Paper>, ghost perm: seq<int>)
    requires cache.Valid()
    modifies cache
    ensures cache.Valid()
    ensures var flow := TermsFlow(old(cache.Contents()), Strings.Take(searchTerms, Config.MaxConcurrentSearches), envs,
                                  today, dateOf, cache.maxEntries, cache.ttlSeconds);
      && cache.Contents() == flow.1
      && var candidates := Candidates(flow.0, today);
      && multiset(processed) == multiset(candidates)
      && ArraySort.Rearranges(processed, candidates, perm)
      && ArraySort.TiesInInputOrder(processed, perm, PaperProcessor.Compare)
      && |papers| == (if |candidates| < Config.MaxTotalPapers then |candidates| else Config.MaxTotalPapers)
      && multiset(papers) <= multiset(candidates)
    ensures papers == PaperProcessor.LimitPapers(processed)
    ensures ArraySort.NeighboursOrdered(processed, PaperProcessor.Compare)
    ensures ArraySort.TransitiveOn(processed, PaperProcessor.Compare) ==> ArraySort.Ordered(processed, PaperProcessor.Compare)
    ensures forall p :: p in papers ==> PaperProcessor.ValidatePaper(PaperProcessor.ToRecord(p))
    ensures Seqs.KeysDistinct(papers, PaperProcessor.GeneratePaperKey)
    ensures ArraySort.NeighboursOrdered(papers, PaperProcessor.Compare)
  {
    var allPapers := SearchTerms(cache, Strings.Take(searchTerms, Config.MaxConcurrentSearches), envs, today, dateOf);
    var ranked;
    ranked, perm := PaperProcessor.ProcessPapers(Records(allPapers), today);
    papers := PaperProcessor.LimitPapers(ranked);
    processed := ranked;
    LimitedPart(ranked, papers, Candidates(allPapers, today));
  }

  /**
   * On a fully ordered ranked list (which `SearchResearchPapers` guarantees
   * when the comparator is transitive on it), every paper the cut to twenty
   * keeps ranks before or level with every paper it drops.
   */
  lemma KeptOutrankDropped(processed: seq<Paper>)
    requires ArraySort.Ordered(processed, PaperProcessor.Compare)
    ensures var kept := PaperProcessor.LimitPapers(processed);
      forall i, j :: 0 <= i < |kept| <= j < |processed| ==> PaperProcessor.Compare(kept[i], processed[j]) <= 0.0
  {
  }

  /**
   * Where the cut to twenty separates papers the comparator ties, the kept
   * one was found before the dropped one.
   */
  lemma DroppedTiesCameLater(processed: seq<Paper>, perm: seq<int>)
    requires ArraySort.TiesInInputOrder(processed, perm, PaperProcessor.Compare)
    requires |perm| == |processed|
    ensures var kept := PaperProcessor.LimitPapers(processed);
      forall i, j :: 0 <= i < |kept| <= j < |processed| && PaperProcessor.Compare(kept[i], processed[j]) == 0.0
        ==> perm[i] < perm[j]
  {
    var kept := PaperProcessor.LimitPapers(processed);
    forall i, j | 0 <= i < |kept| <= j < |processed| && PaperProcessor.Compare(kept[i], processed[j]) == 0.0
      ensures perm[i] < perm[j]
    {
      assert kept[i] == processed[i];
    }
  }

  /** A prefix of a reordering of `candidates` holds part of them, and keeps the per-element and neighbour properties. */
  lemma LimitedPart(processed: seq<Paper>, papers: seq<Paper>, candidates: seq<Paper>)
    requires papers <= processed
    requires multiset(processed) == multiset(candidates)
    requires Seqs.KeysDistinct(processed, PaperProcessor.GeneratePaperKey)
    requires ArraySort.NeighboursOrdered(processed, PaperProcessor.Compare)
    ensures multiset(papers) <= multiset(candidates)
    ensures |processed| == |candidates|
    ensures Seqs.KeysDistinct(papers, PaperProcessor.GeneratePaperKey)
    ensures ArraySort.NeighboursOrdered(papers, PaperProcessor.Compare)
  {
    assert processed == papers + processed[|papers|..];
    assert multiset(processed) == multiset(papers) + multiset(processed[|papers|..]);
    assert |multiset(processed)| == |processed|;
    assert |multiset(candidates)| == |candidates|;
    forall k | 0 <= k < |papers| - 1
      ensures PaperProcessor.Compare(papers[k], papers[k + 1]) <= 0.0
    {
      assert papers[k] == processed[k] && papers[k + 1] == processed[k + 1];
    }
  }

  /** The report of `healthCheck`. */
  datatype Health = Health(arxiv: bool, scholar: bool, timestamp: string)

  /**
   * `healthCheck()`: both providers are asked for the term "test". Each flag
   * records whether the provider answered with an array; since neither lets
   * an error escape, both come out true, whatever the network does.
   */
  method HealthCheck(cache: Caching.Cache<Cached>, env: TermInputs, today: string, dateOf: real -> string,
                     timestamp: string) returns (health: Health)
    requires cache.Valid()
    modifies cache
    ensures cache.Valid()
    ensures health == Health(true, true, timestamp)
    ensures cache.Contents() == TermFlow(old(cache.Contents()), "test", env, today, dateOf, cache.maxEntries, cache.ttlSeconds).1
  {
    health := Health(false, false, timestamp);
    var arxivTest := ArxivService.SearchPapers(cache, "test", env.arxivResponses, today, env.arxivDraws, env.arxivNow,
                                               env.arxivWriteNow);
    health := health.(arxiv := true);
    var scholarTest := ScholarService.SearchPapers(cache, "test", env.encodedTerm, env.scholarDraws, dateOf,
                                                   env.scholarNow, env.scholarWriteNow);
    health := health.(scholar := true);
  }
}
