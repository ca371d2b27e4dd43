/**
 * Search-term generation and answer writing of src/services/ai-service.js.
 * The language model is not part of the model: `aiAttempts(k)` is what its
 * `k`-th call returns or throws, and `callAI` retries it with
 * `ErrorHandler.WithRetry`. A call that returns is `Success(Some(reply))`, or
 * `Success(None)` when the model's result has no `response` field, so that
 * `callAI` returns `undefined`, which `withRetry` does not retry. The shared
 * cache is passed in; `now` is the clock reading when the cache is read and
 * `writeNow` the later one when `set` runs, after the model call, its retries
 * and their delays.
 */
module AiService {
  import opened Wrappers
  import opened Strings
  import Seqs
  import Config
  import Caching
  import ErrorHandler
  import PaperProcessor
  import opened CachedValues

  /** The lines of a reply, each trimmed. */
  function TrimmedLines(response: string): (lines: seq<string>)
    ensures forall k :: 0 <= k < |lines| ==> IsTrimmed(lines[k])
  {
    var parts := Split(response, '\n');
    seq(|parts|, i requires 0 <= i < |parts| => Trim(parts[i]))
  }

  /** The non-empty trimmed lines of a reply, in order. */
  function TermLines(response: string): (kept: seq<string>)
    ensures forall k :: 0 <= k < |kept| ==> kept[k] != "" && IsTrimmed(kept[k])
  {
    var lines := TrimmedLines(response);
    var kept := Seqs.Filter(NonEmpty, lines);
    FilteredLinesAreTrimmed(lines, kept);
    kept
  }

  lemma FilteredLinesAreTrimmed(lines: seq<string>, kept: seq<string>)
    requires forall k :: 0 <= k < |lines| ==> IsTrimmed(lines[k])
    requires kept == Seqs.Filter(NonEmpty, lines)
    ensures forall k :: 0 <= k < |kept| ==> kept[k] != "" && IsTrimmed(kept[k])
  {
    forall k | 0 <= k < |kept| ensures kept[k] != "" && IsTrimmed(kept[k]) {
      Seqs.FilterMembers(NonEmpty, lines, kept[k]);
    }
  }

  const DefaultTerm := "research"

  lemma DefaultTermIsTrimmed()
    ensures DefaultTerm != "" && IsTrimmed(DefaultTerm)
  {
  }

  /**
   * `parseSearchTerms`: the non-empty trimmed lines of the reply, at most five;
   * `['research']` when there are none.
   */
  function ParseSearchTerms(response: string): (r: seq<string>)
    ensures 1 <= |r| <= Config.MaxSearchTerms
    ensures forall k :: 0 <= k < |r| ==> r[k] != "" && IsTrimmed(r[k])
  {
    var kept := TermLines(response);
    if kept != [] then
      if |kept| <= Config.MaxSearchTerms then kept else kept[..Config.MaxSearchTerms]
    else
      DefaultTermIsTrimmed();
      [DefaultTerm]
  }

  /**
   * The terms are the first (up to five) non-empty trimmed lines, in reply
   * order; only a reply without such a line gives the single term 'research'.
   */
  lemma ParseSearchTermsTakesFirstLines(response: string)
    ensures var kept := TermLines(response);
      && (kept == [] ==> ParseSearchTerms(response) == [DefaultTerm])
      && (kept != [] ==> |ParseSearchTerms(response)| == (if |kept| < Config.MaxSearchTerms then |kept| else Config.MaxSearchTerms)
                         && forall k :: 0 <= k < |ParseSearchTerms(response)| ==> ParseSearchTerms(response)[k] == kept[k])
  {
  }

  /** Tokens the keyword fallback keeps: longer than two UTF-16 code units. */
  predicate LongWord(w: string) {
    Utf16Length(w) > 2
  }

  /** `extractKeywords`: the lower-cased query split on single spaces, tokens longer than two code units, at most five. */
  function ExtractKeywords(query: string): (r: seq<string>)
    ensures |r| <= Config.MaxSearchTerms
    ensures forall k :: 0 <= k < |r| ==> Utf16Length(r[k]) > 2 && ' ' !in r[k]
  {
    var words := Split(Lower(query), ' ');
    var kept := Seqs.Filter(LongWord, words);
    var r := Take(kept, Config.MaxSearchTerms);
    forall k | 0 <= k < |r| ensures Utf16Length(r[k]) > 2 && ' ' !in r[k] {
      assert r[k] == kept[k];
      Seqs.FilterMembers(LongWord, words, r[k]);
    }
    r
  }

  /** Keywords hold no upper-case letter and only characters of the query's lower-cased text. */
  lemma ExtractKeywordsAreLowerCase(query: string)
    ensures forall k, c :: 0 <= k < |ExtractKeywords(query)| && c in ExtractKeywords(query)[k] ==> !IsUpper(c) && c in Lower(query)
  {
    var words := Split(Lower(query), ' ');
    var kept := Seqs.Filter(LongWord, words);
    SplitChars(Lower(query), ' ');
    LowerHasNoUpper(query);
    forall k, c | 0 <= k < |ExtractKeywords(query)| && c in ExtractKeywords(query)[k]
      ensures !IsUpper(c) && c in Lower(query)
    {
      var w := ExtractKeywords(query)[k];
      assert w == kept[k];
      Seqs.FilterMembers(LongWord, words, w);
    }
  }

  /** The keyword case of the test suite. */
  lemma ExtractKeywordsExample(query: string)
    requires query == "machine learning"
    ensures ExtractKeywords(query) == ["machine", "learning"]
  {
    KeywordsOfTwoWords(query, "machine", "learning");
    KeepsLongWords("machine", "learning");
  }

  /** A query of two words gives those of them the fallback keeps, in order. */
  lemma KeywordsOfTwoWords(query: string, w1: string, w2: string)
    requires Lower(query) == w1 + [' '] + w2 && ' ' !in w1 && ' ' !in w2
    ensures ExtractKeywords(query) == Seqs.Filter(LongWord, [w1, w2])
  {
    SplitTwoWords(w1, w2);
    var kept := Seqs.Filter(LongWord, [w1, w2]);
    assert Take(kept, Config.MaxSearchTerms) == kept;
  }

  /** Two long words both survive the fallback's filter. */
  lemma KeepsLongWords(w1: string, w2: string)
    requires LongWord(w1) && LongWord(w2)
    ensures Seqs.Filter(LongWord, [w1, w2]) == [w1, w2]
  {
    Seqs.FilterAll(LongWord, [w1, w2]);
  }

  /** Two words joined by one space split back into the two words. */
  lemma SplitTwoWords(w1: string, w2: string)
    requires ' ' !in w1 && ' ' !in w2
    ensures Split(w1 + [' '] + w2, ' ') == [w1, w2]
  {
    SplitWithoutSeparator(w2, ' ');
    SplitAtFirstSeparator(w1, ' ', w2);
  }

  /**
   * Unlike the reply parser, the keyword fallback can come back empty: a query
   * of short words gives no keyword at all.
   */
  lemma ExtractKeywordsMayBeEmpty(query: string)
    requires query == "AI ML"
    ensures ExtractKeywords(query) == []
  {
    var w1, w2 := "ai", "ml";
    assert Lower(query) == w1 + [' '] + w2;
    KeywordsOfTwoWords(query, w1, w2);
    Utf16LengthOfBmp(w1);
    Utf16LengthOfBmp(w2);
    Seqs.FilterEmpty(LongWord, [w1, w2]);
  }

  const SearchTermsPrefix := "search_terms"
  const ResponsePrefix := "ai_response"

  /**
   * `generateSearchTerms` on a cache holding `st`, given what `callAI` returned
   * or threw: the terms and the cache afterwards. The cache is read at `now`
   * and written at `writeNow`, once the model has answered. An `undefined`
   * reply makes `parseSearchTerms` throw before the write, so the keyword
   * fallback answers, as it does for a failed call.
   */
  function SearchTermsFlow(st: Caching.Store<Cached>, query: string, ai: Result<Option<string>, Option<string>>,
                           now: int, writeNow: int, maxEntries: int, ttlSeconds: int): (seq<string>, Caching.Store<Cached>)
  {
    var key := Caching.GenerateKey(SearchTermsPrefix, [query]);
    var hit := Caching.Lookup(st, key, now).0;
    var st1 := Caching.Lookup(st, key, now).1;
    if hit.Some? && Truthy(hit.value) && hit.value.TermList? then (hit.value.terms, st1)
    else if ai.Success? && ai.value.Some? then
      var terms := ParseSearchTerms(ai.value.value);
      (terms, Caching.Insert(st1, key, TermList(terms), ExpiryOfWrite(writeNow, ttlSeconds), maxEntries))
    else (ExtractKeywords(query), st1)
  }

  /** A cached term list is returned as it is, whatever the model would have said, and the cache is not changed. */
  lemma SearchTermsCacheHit(st: Caching.Store<Cached>, query: string, ai: Result<Option<string>, Option<string>>,
                            now: int, writeNow: int, maxEntries: int, ttlSeconds: int, terms: seq<string>)
    requires Caching.Lookup(st, Caching.GenerateKey(SearchTermsPrefix, [query]), now).0 == Some(TermList(terms))
    ensures SearchTermsFlow(st, query, ai, now, writeNow, maxEntries, ttlSeconds) == (terms, st)
  {
  }

  /** On a miss, a reply is parsed and the terms are written under the query's key at `writeNow`. */
  lemma SearchTermsMissWrites(st: Caching.Store<Cached>, query: string, reply: string,
                              now: int, writeNow: int, maxEntries: int, ttlSeconds: int)
    requires Caching.Lookup(st, Caching.GenerateKey(SearchTermsPrefix, [query]), now).0.None?
    ensures var key := Caching.GenerateKey(SearchTermsPrefix, [query]);
      SearchTermsFlow(st, query, Success(Some(reply)), now, writeNow, maxEntries, ttlSeconds)
      == (ParseSearchTerms(reply), Caching.Insert(Caching.Lookup(st, key, now).1, key, TermList(ParseSearchTerms(reply)),
                                                  ExpiryOfWrite(writeNow, ttlSeconds), maxEntries))
  {
    var ai: Result<Option<string>, Option<string>> := Success(Some(reply));
    assert ai.Success? && ai.value.Some? && ai.value.value == reply;
  }

  /**
   * On a miss, a reply is parsed, and the parsed terms are what a read of the
   * same key returns until they expire.
   */
  lemma SearchTermsAiSuccess(st: Caching.Store<Cached>, query: string, reply: string,
                             now: int, writeNow: int, maxEntries: int, ttlSeconds: int, later: int)
    requires Caching.Lookup(st, Caching.GenerateKey(SearchTermsPrefix, [query]), now).0.None?
    requires writeNow <= later <= ExpiryOfWrite(writeNow, ttlSeconds)
    ensures var (terms, st') := SearchTermsFlow(st, query, Success(Some(reply)), now, writeNow, maxEntries, ttlSeconds);
      && terms == ParseSearchTerms(reply)
      && Caching.Lookup(st', Caching.GenerateKey(SearchTermsPrefix, [query]), later).0 == Some(TermList(terms))
  {
    var key := Caching.GenerateKey(SearchTermsPrefix, [query]);
    var st1 := Caching.Lookup(st, key, now).1;
    var ttl := Caching.EffectiveTtl(Some(Config.CacheTtlSeconds), ttlSeconds);
    SearchTermsMissWrites(st, query, reply, now, writeNow, maxEntries, ttlSeconds);
    Caching.SetThenGet(st1, key, TermList(ParseSearchTerms(reply)), writeNow, ttl, maxEntries, later);
  }

  /** On a miss, a failed model call falls back to the keywords and writes nothing to the cache. */
  lemma SearchTermsAiFailure(st: Caching.Store<Cached>, query: string, error: Option<string>,
                             now: int, writeNow: int, maxEntries: int, ttlSeconds: int)
    requires Caching.Lookup(st, Caching.GenerateKey(SearchTermsPrefix, [query]), now).0.None?
    ensures SearchTermsFlow(st, query, Failure(error), now, writeNow, maxEntries, ttlSeconds)
            == (ExtractKeywords(query), Caching.Lookup(st, Caching.GenerateKey(SearchTermsPrefix, [query]), now).1)
  {
  }

  /**
   * On a miss, an `undefined` reply also falls back to the keywords and writes
   * nothing; since it is a returned value, `withRetry` makes no second attempt.
   */
  lemma SearchTermsNoReply(st: Caching.Store<Cached>, query: string, aiAttempts: nat -> Result<Option<string>, string>,
                           now: int, writeNow: int, maxEntries: int, ttlSeconds: int)
    requires Caching.Lookup(st, Caching.GenerateKey(SearchTermsPrefix, [query]), now).0.None?
    requires aiAttempts(1) == Success(None)
    ensures ErrorHandler.Retry(aiAttempts, Config.MaxRetries, Config.RetryDelayMs)
            == ErrorHandler.RetryTrace(Success(None), 1, [])
    ensures SearchTermsFlow(st, query, ErrorHandler.Retry(aiAttempts, Config.MaxRetries, Config.RetryDelayMs).result,
                            now, writeNow, maxEntries, ttlSeconds)
            == (ExtractKeywords(query), Caching.Lookup(st, Caching.GenerateKey(SearchTermsPrefix, [query]), now).1)
  {
  }

  /** `generateSearchTerms(query)`: the cache first, then the model with retries, then the keyword fallback. */
  method GenerateSearchTerms(cache: Caching.Cache<Cached>, query: string, aiAttempts: nat -> Result<Option<string>, string>,
                             now: int, writeNow: int)
    returns (terms: seq<string>)
    requires cache.Valid()
    modifies cache
    ensures cache.Valid()
    ensures (terms, cache.Contents())
         == SearchTermsFlow(old(cache.Contents()), query,
                            ErrorHandler.Retry(aiAttempts, Config.MaxRetries, Config.RetryDelayMs).result,
                            now, writeNow, cache.maxEntries, cache.ttlSeconds)
  {
    ghost var st := cache.Contents();
    var key := Caching.GenerateKey(SearchTermsPrefix, [query]);
    var cached := cache.Get(key, now);
    if cached.Some? && Truthy(cached.value) && cached.value.TermList? {
      return cached.value.terms;
    }
    var reply, _, _ := ErrorHandler.WithRetry(aiAttempts, Config.MaxRetries, Config.RetryDelayMs);
    ghost var flow := SearchTermsFlow(st, query, reply, now, writeNow, cache.maxEntries, cache.ttlSeconds);
    if reply.Success? && reply.value.Some? {
      terms := ParseSearchTerms(reply.value.value);
      cache.Set(key, TermList(terms), Some(Config.CacheTtlSeconds), writeNow);
      assert (terms, cache.Contents()) == flow;
    } else {
      terms := ExtractKeywords(query);
      assert (terms, cache.Contents()) == flow;
    }
  }

  /** One line of the answer prompt: number, quoted title, authors, citations and source. */
  function PaperLine(number: nat, p: PaperProcessor.Paper): (line: string)
    ensures NatToString(number) + ". \"" + p.title <= line
  {
    var head := NatToString(number) + ". \"" + p.title;
    head + ("\" by " + Join(p.authors, ", ") + " (" + IntToString(p.citations) + " citations, " + p.source + ")")
  }

  /** The paper lines of `createResponsePrompt`: the first five papers at most, numbered from 1. */
  function SummaryLines(papers: seq<PaperProcessor.Paper>): (lines: seq<string>)
    ensures |lines| == if |papers| < 5 then |papers| else 5
    ensures forall k :: 0 <= k < |lines| ==> NatToString(k + 1) + ". \"" + papers[k].title <= lines[k]
  {
    var top := Take(papers, 5);
    seq(|top|, i requires 0 <= i < |top| => PaperLine(i + 1, top[i]))
  }

  /** `createResponsePrompt(query, papers)`. */
  function ResponsePrompt(query: string, papers: seq<PaperProcessor.Paper>): string {
    PromptHead(query, papers) + PromptBody(papers)
  }

  /** The opening of the answer prompt: the query and the number of papers found. */
  function PromptHead(query: string, papers: seq<PaperProcessor.Paper>): string {
    PromptOpening + query + PromptFound + NatToString(|papers|)
  }

  const PromptOpening := "Based on the research query \""
  const PromptFound := "\", I found "

  /** The rest of the answer prompt: the paper lines and the instruction. */
  function PromptBody(papers: seq<PaperProcessor.Paper>): string {
    PromptLead + Join(SummaryLines(papers), "\n") + PromptInstruction
  }

  const PromptLead := " relevant research papers. Here are the top results:\n\n"
  const PromptInstruction := "\n\nPlease provide a brief summary of the research landscape for this topic, highlighting the most important findings and trends. Keep the response concise and informative."

  /** The answer prompt opens with the query and the number of papers found, before any paper line. */
  lemma ResponsePromptOpensWithQuery(query: string, papers: seq<PaperProcessor.Paper>)
    ensures PromptHead(query, papers) <= ResponsePrompt(query, papers)
    ensures Contains(ResponsePrompt(query, papers), query)
  {
    OpensWith(PromptOpening, query, PromptFound, NatToString(|papers|), PromptBody(papers));
  }

  /** `a + sub + b + c` starts with itself and contains `sub`, whatever follows. */
  lemma OpensWith(a: string, sub: string, b: string, c: string, tail: string)
    ensures a + sub + b + c <= a + sub + b + c + tail
    ensures Contains(a + sub + b + c + tail, sub)
  {
    assert a + sub + b + c + tail == a + sub + (b + c + tail);
    ContainsInfix(a, sub, b + c + tail);
  }

  /** A text contains whatever sits in the middle of it. */
  lemma ContainsInfix(a: string, sub: string, b: string)
    ensures Contains(a + sub + b, sub)
  {
    assert OccursAt(a + sub + b, sub, |a|);
  }

  function SourceOf(p: PaperProcessor.Paper): string {
    p.source
  }

  function Identity(s: string): string {
    s
  }

  /** `papers.map(p => p.source)`. */
  function Sources(papers: seq<PaperProcessor.Paper>): (sources: seq<string>)
    ensures |sources| == |papers|
    ensures forall i :: 0 <= i < |papers| ==> sources[i] == papers[i].source
  {
    if papers == [] then [] else [papers[0].source] + Sources(papers[1..])
  }

  /** `[...new Set(papers.map(p => p.source))]`: the sources in order of first occurrence. */
  function DistinctSources(papers: seq<PaperProcessor.Paper>): seq<string> {
    Seqs.Dedupe(Sources(papers), Identity)
  }

  /** The fallback answer names no source twice. */
  lemma DistinctSourcesAreDistinct(papers: seq<PaperProcessor.Paper>)
    ensures var r := DistinctSources(papers);
      forall i, j :: 0 <= i < j < |r| ==> r[i] != r[j]
  {
    Seqs.DedupeDistinct(Sources(papers), Identity);
  }

  /** Each source the fallback answer names is the source of a paper, at that source's first occurrence. */
  lemma DistinctSourcesAreFirstOccurrences(papers: seq<PaperProcessor.Paper>)
    ensures var r := DistinctSources(papers);
      forall k :: 0 <= k < |r| ==>
        exists i :: 0 <= i < |papers| && papers[i].source == r[k] && forall j :: 0 <= j < i ==> papers[j].source != r[k]
  {
    var sources := Sources(papers);
    var r := DistinctSources(papers);
    forall k | 0 <= k < |r|
      ensures exists i :: 0 <= i < |papers| && papers[i].source == r[k] && forall j :: 0 <= j < i ==> papers[j].source != r[k]
    {
      Seqs.KeptIsFirst(sources, Identity, {}, k);
      var i :| Seqs.FirstOfKey(sources, Identity, {}, i) && sources[i] == r[k];
      assert forall j :: 0 <= j < i ==> Identity(sources[j]) == papers[j].source;
    }
  }

  /** Every paper's source is named in the fallback answer. */
  lemma DistinctSourcesCoverAllSources(papers: seq<PaperProcessor.Paper>)
    ensures forall i :: 0 <= i < |papers| ==> papers[i].source in DistinctSources(papers)
  {
    var sources := Sources(papers);
    forall i | 0 <= i < |papers|
      ensures papers[i].source in DistinctSources(papers)
    {
      var f := FirstOf(sources, i);
      assert Seqs.FirstOfKey(sources, Identity, {}, f);
      Seqs.FirstIsKept(sources, Identity, {}, f);
    }
  }

  /** The first index holding the value found at `i`. */
  lemma FirstOf(xs: seq<string>, i: int) returns (f: int)
    requires 0 <= i < |xs|
    ensures 0 <= f <= i && xs[f] == xs[i] && forall j :: 0 <= j < f ==> xs[j] != xs[i]
  {
    f := 0;
    while xs[f] != xs[i]
      invariant 0 <= f <= i && forall j :: 0 <= j < f ==> xs[j] != xs[i]
      decreases i - f
    {
      f := f + 1;
    }
  }

  /** `createFallbackResponse(query, papers)`: the paper count, the query and the distinct sources. */
  function FallbackResponse(query: string, papers: seq<PaperProcessor.Paper>): (text: string)
    ensures "I found " + NatToString(|papers|) + " research papers related to \"" + query + "\"" <= text
  {
    var head := "I found " + NatToString(|papers|) + " research papers related to \"" + query + "\"";
    head + (FallbackLead + Join(DistinctSources(papers), ", ") + FallbackClosing)
  }

  const FallbackLead := ". The top results include papers from "
  const FallbackClosing := ". These papers cover various aspects of the topic and provide valuable insights for further research."

  /** The cache key of an answer: the query and the number of papers. */
  function ResponseKey(query: string, papers: seq<PaperProcessor.Paper>): string {
    Caching.GenerateKey(ResponsePrefix, [query, NatToString(|papers|)])
  }

  /** The cache entry of a reply: its text, or `undefined`. */
  function ReplyEntry(reply: Option<string>): (c: Cached)
    ensures c.Text? <==> reply.Some?
    ensures reply.Some? ==> c.text == reply.value
  {
    if reply.Some? then Text(reply.value) else Undefined
  }

  /**
   * `generateResponse` on a cache holding `st`, given what `callAI` returned or
   * threw: the answer (`None` for `undefined`) and the cache afterwards. The
   * cache is read at `now` and written at `writeNow`, once the model has
   * answered. A returned reply, `undefined` included, is cached and returned.
   */
  function ResponseFlow(st: Caching.Store<Cached>, query: string, papers: seq<PaperProcessor.Paper>,
                        ai: Result<Option<string>, Option<string>>, now: int, writeNow: int, maxEntries: int,
                        ttlSeconds: int)
    : (Option<string>, Caching.Store<Cached>)
  {
    var key := ResponseKey(query, papers);
    var hit := Caching.Lookup(st, key, now).0;
    var st1 := Caching.Lookup(st, key, now).1;
    if hit.Some? && Truthy(hit.value) && hit.value.Text? then (Some(hit.value.text), st1)
    else if ai.Success? then
      (ai.value, Caching.Insert(st1, key, ReplyEntry(ai.value), ExpiryOfWrite(writeNow, ttlSeconds), maxEntries))
    else (Some(FallbackResponse(query, papers)), st1)
  }

  /** A failed model call answers with the fallback text and writes nothing to the cache. */
  lemma ResponseAiFailure(st: Caching.Store<Cached>, query: string, papers: seq<PaperProcessor.Paper>,
                          error: Option<string>, now: int, writeNow: int, maxEntries: int, ttlSeconds: int)
    requires Caching.Lookup(st, ResponseKey(query, papers), now).0.None?
    ensures ResponseFlow(st, query, papers, Failure(error), now, writeNow, maxEntries, ttlSeconds)
            == (Some(FallbackResponse(query, papers)), Caching.Lookup(st, ResponseKey(query, papers), now).1)
  {
  }

  /**
   * An empty reply is written to the cache but never served from it: the next
   * call finds the entry falsy and asks the model again.
   */
  lemma EmptyReplyIsNotServed(st: Caching.Store<Cached>, query: string, papers: seq<PaperProcessor.Paper>,
                              now: int, writeNow: int, maxEntries: int, ttlSeconds: int, later: int, laterWrite: int,
                              next: Result<Option<string>, Option<string>>)
    requires Caching.Lookup(st, ResponseKey(query, papers), now).0.None?
    requires writeNow <= later <= ExpiryOfWrite(writeNow, ttlSeconds)
    ensures var (text, st') := ResponseFlow(st, query, papers, Success(Some("")), now, writeNow, maxEntries, ttlSeconds);
      && text == Some("")
      && Caching.Lookup(st', ResponseKey(query, papers), later).0 == Some(Text(""))
      && ResponseFlow(st', query, papers, next, later, laterWrite, maxEntries, ttlSeconds).0
         == if next.Success? then next.value else Some(FallbackResponse(query, papers))
  {
    var key := ResponseKey(query, papers);
    var st1 := Caching.Lookup(st, key, now).1;
    Caching.SetThenGet(st1, key, Text(""), writeNow, Caching.EffectiveTtl(Some(Config.CacheTtlSeconds), ttlSeconds), maxEntries, later);
  }

  /**
   * A reply without a `response` field is returned as `undefined` and written
   * to the cache, but never served from it: the next call asks the model again.
   */
  lemma MissingReplyIsNotServed(st: Caching.Store<Cached>, query: string, papers: seq<PaperProcessor.Paper>,
                                now: int, writeNow: int, maxEntries: int, ttlSeconds: int, later: int, laterWrite: int,
                                next: Result<Option<string>, Option<string>>)
    requires Caching.Lookup(st, ResponseKey(query, papers), now).0.None?
    requires writeNow <= later <= ExpiryOfWrite(writeNow, ttlSeconds)
    ensures var (text, st') := ResponseFlow(st, query, papers, Success(None), now, writeNow, maxEntries, ttlSeconds);
      && text == None
      && Caching.Lookup(st', ResponseKey(query, papers), later).0 == Some(Undefined)
      && ResponseFlow(st', query, papers, next, later, laterWrite, maxEntries, ttlSeconds).0
         == if next.Success? then next.value else Some(FallbackResponse(query, papers))
  {
    var key := ResponseKey(query, papers);
    var st1 := Caching.Lookup(st, key, now).1;
    Caching.SetThenGet(st1, key, Undefined, writeNow, Caching.EffectiveTtl(Some(Config.CacheTtlSeconds), ttlSeconds), maxEntries, later);
  }

  /**
   * `generateResponse(query, papers)`: the cache first, then the model with
   * retries, then the fallback text; `None` is the `undefined` a reply without
   * a `response` field gives.
   */
  method GenerateResponse(cache: Caching.Cache<Cached>, query: string, papers: seq<PaperProcessor.Paper>,
                          aiAttempts: nat -> Result<Option<string>, string>, now: int,
                          writeNow: int)
    returns (text: Option<string>)
    requires cache.Valid()
    modifies cache
    ensures cache.Valid()
    ensures (text, cache.Contents())
         == ResponseFlow(old(cache.Contents()), query, papers,
                         ErrorHandler.Retry(aiAttempts, Config.MaxRetries, Config.RetryDelayMs).result,
                         now, writeNow, cache.maxEntries, cache.ttlSeconds)
  {
    var key := ResponseKey(query, papers);
    var cached := cache.Get(key, now);
    if cached.Some? && Truthy(cached.value) && cached.value.Text? {
      return Some(cached.value.text);
    }
    var reply, _, _ := ErrorHandler.WithRetry(aiAttempts, Config.MaxRetries, Config.RetryDelayMs);
    if reply.Success? {
      text := reply.value;
      cache.Set(key, ReplyEntry(text), Some(Config.CacheTtlSeconds), writeNow);
    } else {
      text := Some(FallbackResponse(query, papers));
    }
  }
}
