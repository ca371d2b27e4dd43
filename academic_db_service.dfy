/**
 * The academic database provider of src/services/academic-db-service.js:
 * PubMed (an id search, then the article details as XML), DOAJ, CORE and
 * BASE (JSON), merged, de-duplicated by title, ranked by query words and
 * cached under 'academic:'+query.
 *
 * Each request's outcome is an input. A JSON body is given as the one field
 * the service reads from it (`idlist`, `results` or `data`), `None` when that
 * field is missing. `draws(k)` is the `k`-th value `Math.random()` returns
 * for one provider's papers; `currentYear` and `today` stand for the clock.
 */
module AcademicDbService {
  import opened Wrappers
  import opened Strings
  import Config
  import Caching
  import Http
  import Seqs
  import ArraySort
  import PaperProcessor
  import opened TextMatch
  import opened CachedValues

  type Paper = PaperProcessor.Paper

  const KeyPrefix := "academic"
  const UnknownAuthor := "Unknown Author"
  const NoAbstract := "No abstract available"
  const Untitled := "Untitled"

  // PubMed

  const ArticlePattern := Span("<PubmedArticle>", false, [], "</PubmedArticle>")
  const TitleTag := Tag("<ArticleTitle>", false, '<', "</ArticleTitle>")
  const AbstractTag := Tag("<AbstractText", true, '<', "</AbstractText>")
  const LastNameTag := Tag("<LastName>", false, '<', "</LastName>")
  const ForeNameTag := Tag("<ForeName>", false, '<', "</ForeName>")
  const AuthorPattern := Span("<Author", true, [LastNameTag, ForeNameTag], "</Author>")
  const PmidTag := Tag("<PMID", true, '<', "</PMID>")
  const YearTag := Tag("<Year>", false, '<', "</Year>")
  const DatePattern := Span("<PubDate>", false, [YearTag], "</PubDate>")
  const PubMedSource := "PubMed"
  const PubMedHome := "https://pubmed.ncbi.nlm.nih.gov/"
  const DetailsLead := "https://eutils.ncbi.nlm.nih.gov/entrez/eutils/efetch.fcgi?db=pubmed&id="
  const DetailsEnd := "&retmode=xml"

  /** The year of the leftmost `<PubDate>...<Year>X</Year>...</PubDate>` match. */
  function YearOf(article: string): Option<string> {
    match First(article, DatePattern, 0)
    case None => None
    case Some(m) => Some(m.groups[0])
  }

  /** The name read back from one author match: `${fore || ''} ${last || ''}`, trimmed. */
  function AuthorName(author: string): string {
    Trim(PaperProcessor.OrText(Group(author, ForeNameTag), "") + " " + PaperProcessor.OrText(Group(author, LastNameTag), ""))
  }

  /** The names of the author matches, in order, blanks dropped. */
  function AuthorNames(article: string): (names: seq<string>)
    ensures forall k :: 0 <= k < |names| ==> names[k] != "" && IsTrimmed(names[k])
  {
    var found := All(article, AuthorPattern);
    var all := seq(|found|, i requires 0 <= i < |found| => AuthorName(found[i].text));
    var names := Seqs.Filter(NonEmpty, all);
    assert forall k :: 0 <= k < |names| ==> names[k] in all by {
      forall k | 0 <= k < |names|
        ensures names[k] in all
      {
        Seqs.FilterMembers(NonEmpty, all, names[k]);
      }
    }
    names
  }

  /** What `parsePubMedXML` reads from one article. */
  datatype ArticleParts = ArticleParts(
    title: Option<string>,
    abstractText: Option<string>,
    authors: seq<string>,
    pmid: Option<string>,
    year: Option<string>)

  function ArticlePartsOf(article: string): ArticleParts {
    ArticleParts(Group(article, TitleTag), Group(article, AbstractTag), AuthorNames(article),
                 Group(article, PmidTag), YearOf(article))
  }

  /** The record pushed for an article, or none without a title. */
  function BuildArticle(parts: ArticleParts, currentYear: string, draw: real): Option<Paper> {
    if parts.title.None? then None
    else
      var pmid := if parts.pmid.Some? then parts.pmid.value else "";
      var year := if parts.year.Some? then parts.year.value else currentYear;
      Some(PaperProcessor.Paper(
        Trim(parts.title.value),
        if parts.abstractText.Some? then Trim(parts.abstractText.value) else NoAbstract,
        if |parts.authors| > 0 then parts.authors else [UnknownAuthor],
        year + "-01-01",
        if pmid != "" then PubMedHome + pmid + "/" else PubMedHome,
        PubMedSource,
        0,
        draw * 0.4 + 0.6))
  }

  function ParseArticle(article: string, currentYear: string, draw: real): Option<Paper> {
    BuildArticle(ArticlePartsOf(article), currentYear, draw)
  }

  /** An article yields a record exactly when it holds `<ArticleTitle>X</ArticleTitle>` with X non-empty and free of '<'. */
  lemma ParseArticleNullIff(article: string, currentYear: string, draw: real)
    ensures ParseArticle(article, currentYear, draw).Some? <==> exists x, i :: Occurrence(article, TitleTag, x, i)
  {
    FindsIffOccurs(article, TitleTag);
  }

  /** The properties every PubMed record has. */
  ghost predicate WellBuiltArticle(p: Paper) {
    && IsTrimmed(p.title)
    && |p.authors| > 0
    && (p.authors == [UnknownAuthor] || forall k :: 0 <= k < |p.authors| ==> p.authors[k] != "" && IsTrimmed(p.authors[k]))
    && (p.url == PubMedHome || exists pmid :: pmid != "" && p.url == PubMedHome + pmid + "/")
    && p.source == PubMedSource && p.citations == 0
  }

  /**
   * A record has a trimmed title, at least one author (trimmed non-blank
   * names, or 'Unknown Author'), the date `year-01-01` of its `<PubDate>`
   * year or else of the current year, the article page of its PMID or the
   * PubMed home page, source 'PubMed', no citations, and, for a draw in
   * [0, 1), a relevance in [0.6, 1.0).
   */
  lemma ArticleFields(parts: ArticleParts, currentYear: string, draw: real)
    requires BuildArticle(parts, currentYear, draw).Some?
    requires forall k :: 0 <= k < |parts.authors| ==> parts.authors[k] != "" && IsTrimmed(parts.authors[k])
    ensures var p := BuildArticle(parts, currentYear, draw).value;
      && WellBuiltArticle(p)
      && p.publishedDate == (if parts.year.Some? then parts.year.value else currentYear) + "-01-01"
      && (0.0 <= draw < 1.0 ==> 0.6 <= p.relevanceScore < 1.0)
  {
    var p := BuildArticle(parts, currentYear, draw).value;
    if parts.pmid.Some? && parts.pmid.value != "" {
      assert p.url == PubMedHome + parts.pmid.value + "/";
    }
  }

  /** The texts of the shortest `<PubmedArticle>...</PubmedArticle>` blocks, in document order. */
  function ArticleTexts(xml: string): seq<string> {
    var found := All(xml, ArticlePattern);
    seq(|found|, i requires 0 <= i < |found| => found[i].text)
  }

  /** `parseArticle` with the `k`-th draw for the `k`-th record kept. */
  function ArticleParser(currentYear: string, draws: nat -> real): (string, nat) -> Option<Paper> {
    (article: string, k: nat) => ParseArticle(article, currentYear, draws(k))
  }

  /** The records of a PubMed details document: each article in document order, articles without a title skipped. */
  function ParsePubMed(xml: string, currentYear: string, draws: nat -> real): (papers: seq<Paper>)
    ensures |papers| <= |All(xml, ArticlePattern)|
  {
    Seqs.Collect(ArticleTexts(xml), ArticleParser(currentYear, draws), 0)
  }

  /** Every record of a details document is well built; with draws in [0, 1), its relevance is in [0.6, 1.0). */
  lemma PubMedFields(xml: string, currentYear: string, draws: nat -> real)
    requires forall k: nat :: 0.0 <= draws(k) < 1.0
    ensures forall p :: p in ParsePubMed(xml, currentYear, draws) ==> WellBuiltArticle(p) && 0.6 <= p.relevanceScore < 1.0
  {
    var parse := ArticleParser(currentYear, draws);
    forall article, k | parse(article, k).Some?
      ensures WellBuiltArticle(parse(article, k).value) && 0.6 <= parse(article, k).value.relevanceScore < 1.0
    {
      ArticleFields(ArticlePartsOf(article), currentYear, draws(k));
    }
    Seqs.CollectAll(ArticleTexts(xml), parse, 0, (p: Paper) => WellBuiltArticle(p) && 0.6 <= p.relevanceScore < 1.0);
  }

  /** `parsePubMedXML`: each article parsed in turn, the records pushed in document order. */
  method ParsePubMedXml(xml: string, currentYear: string, draws: nat -> real) returns (papers: seq<Paper>)
    ensures papers == ParsePubMed(xml, currentYear, draws)
  {
    papers := Seqs.CollectEach(ArticleTexts(xml), ArticleParser(currentYear, draws));
  }

  /** What `searchPubMed` returns, and the details url it requested, if it got that far. */
  datatype PubMedRun = PubMedRun(papers: seq<Paper>, detailsUrl: Option<string>)

  /** `pmids.join(',')` in the details url. */
  function DetailsUrl(pmids: seq<string>): string {
    DetailsLead + Join(pmids, ",") + DetailsEnd
  }

  /**
   * `searchPubMed(query)`: the id search (its `idlist`, or [] when absent),
   * then, for a non-empty list, the details request and its parse. A bad
   * status or an unreadable body anywhere gives no papers.
   */
  function SearchPubMed(search: Http.Outcome<Option<seq<string>>>, details: Http.Outcome<string>,
                        currentYear: string, draws: nat -> real): PubMedRun
  {
    var body := Http.Body("PubMed", search);
    if body.None? then PubMedRun([], None)
    else
      var pmids := if body.value.Some? then body.value.value else [];
      if |pmids| == 0 then PubMedRun([], None)
      else
        var xml := Http.Body("PubMed details", details);
        if xml.None? then PubMedRun([], Some(DetailsUrl(pmids)))
        else PubMedRun(ParsePubMed(xml.value, currentYear, draws), Some(DetailsUrl(pmids)))
  }

  /**
   * Without ids (a failed search, no `idlist`, or an empty one) no details
   * are requested and there are no papers; with ids the details of exactly
   * those ids are requested, and the papers are the parsed document when
   * that request succeeds, none otherwise.
   */
  lemma PubMedRequests(search: Http.Outcome<Option<seq<string>>>, details: Http.Outcome<string>,
                       currentYear: string, draws: nat -> real)
    ensures var run := SearchPubMed(search, details, currentYear, draws);
      var ids := Http.Body("PubMed", search);
      && (ids.None? || ids.value.None? || ids.value.value == [] ==> run == PubMedRun([], None))
      && (ids.Some? && ids.value.Some? && ids.value.value != [] ==> run.detailsUrl == Some(DetailsUrl(ids.value.value)))
      && (ids.Some? && ids.value.Some? && ids.value.value != [] && details.Response? && Http.Ok(details.status) && details.body.Some?
          ==> run.papers == ParsePubMed(details.body.value, currentYear, draws))
      && (!(details.Response? && Http.Ok(details.status)) ==> run.papers == [])
  {
  }

  // DOAJ, CORE and BASE

  const DoajSource := "DOAJ"
  const DoajArticleLead := "https://doaj.org/article/"
  const CoreSource := "CORE"
  const CoreDisplayLead := "https://core.ac.uk/display/"
  const BaseSource := "BASE"
  const BaseHome := "https://www.base-search.net/"

  /** A DOAJ `bibjson`: the author names and the urls of its links, each field present or not. */
  datatype Bibjson = Bibjson(
    title: Option<string>,
    abstractText: Option<string>,
    authorNames: Option<seq<string>>,
    year: Option<string>,
    linkUrls: Option<seq<Option<string>>>)

  datatype DoajArticle = DoajArticle(id: Option<string>, bibjson: Option<Bibjson>)

  /** A CORE result. */
  datatype CoreRecord = CoreRecord(
    title: Option<string>,
    abstractText: Option<string>,
    authors: Option<seq<string>>,
    publishedDate: Option<string>,
    downloadUrl: Option<string>,
    uri: Option<string>,
    id: Option<string>)

  /** A BASE result. */
  datatype BaseRecord = BaseRecord(
    title: Option<string>,
    abstractText: Option<string>,
    author: Option<seq<string>>,
    year: Option<string>,
    url: Option<string>,
    link: Option<string>)

  /** `${value}` of a possibly missing text: an absent one prints as 'undefined'. */
  function Interpolated(value: Option<string>): string {
    if value.Some? then value.value else "undefined"
  }

  /** `list || [fallback]`: an array, even an empty one, is kept. */
  function OrList(list: Option<seq<string>>, fallback: seq<string>): seq<string> {
    if list.Some? then list.value else fallback
  }

  /** `article.bibjson?.field`: a missing `bibjson` reads as one whose fields are all missing. */
  function Bib(a: DoajArticle): Bibjson {
    if a.bibjson.Some? then a.bibjson.value else Bibjson(None, None, None, None, None)
  }

  /** `bibjson?.link?.[0]?.url`. */
  function FirstLinkUrl(b: Bibjson): Option<string> {
    if b.linkUrls.Some? && |b.linkUrls.value| > 0 then b.linkUrls.value[0] else None
  }

  /** The record the DOAJ mapper makes of one article. */
  function DoajPaper(a: DoajArticle, currentYear: string, draw: real): Paper {
    var b := Bib(a);
    PaperProcessor.Paper(
      PaperProcessor.OrText(b.title, Untitled),
      PaperProcessor.OrText(b.abstractText, NoAbstract),
      OrList(b.authorNames, [UnknownAuthor]),
      PaperProcessor.OrText(b.year, currentYear),
      PaperProcessor.OrText(FirstLinkUrl(b), DoajArticleLead + Interpolated(a.id)),
      DoajSource,
      0,
      draw * 0.4 + 0.6)
  }

  /** The record the CORE mapper makes of one result. */
  function CorePaper(r: CoreRecord, today: string, draw: real): Paper {
    PaperProcessor.Paper(
      PaperProcessor.OrText(r.title, Untitled),
      PaperProcessor.OrText(r.abstractText, NoAbstract),
      OrList(r.authors, [UnknownAuthor]),
      PaperProcessor.OrText(r.publishedDate, today),
      PaperProcessor.OrText(r.downloadUrl, PaperProcessor.OrText(r.uri, CoreDisplayLead + Interpolated(r.id))),
      CoreSource,
      0,
      draw * 0.4 + 0.6)
  }

  /** The record the BASE mapper makes of one result. */
  function BasePaper(r: BaseRecord, currentYear: string, draw: real): Paper {
    PaperProcessor.Paper(
      PaperProcessor.OrText(r.title, Untitled),
      PaperProcessor.OrText(r.abstractText, NoAbstract),
      OrList(r.author, [UnknownAuthor]),
      PaperProcessor.OrText(r.year, currentYear),
      PaperProcessor.OrText(r.url, PaperProcessor.OrText(r.link, BaseHome)),
      BaseSource,
      0,
      draw * 0.4 + 0.6)
  }

  /** `searchDOAJ(query)`: the mapped `results`, or [] when the request fails or `results` is missing. */
  function SearchDoaj(o: Http.Outcome<Option<seq<DoajArticle>>>, currentYear: string, draws: nat -> real): (papers: seq<Paper>)
    ensures var body := Http.Body("DOAJ", o);
      |papers| == if body.Some? && body.value.Some? then |body.value.value| else 0
  {
    var body := Http.Body("DOAJ", o);
    if body.None? || body.value.None? then []
    else
      var results := body.value.value;
      seq(|results|, i requires 0 <= i < |results| => DoajPaper(results[i], currentYear, draws(i)))
  }

  /** `searchCORE(query)`: the mapped `data`, or [] when the request fails or `data` is missing. */
  function SearchCore(o: Http.Outcome<Option<seq<CoreRecord>>>, today: string, draws: nat -> real): (papers: seq<Paper>)
    ensures var body := Http.Body("CORE", o);
      |papers| == if body.Some? && body.value.Some? then |body.value.value| else 0
  {
    var body := Http.Body("CORE", o);
    if body.None? || body.value.None? then []
    else
      var results := body.value.value;
      seq(|results|, i requires 0 <= i < |results| => CorePaper(results[i], today, draws(i)))
  }

  /** `searchBASE(query)`: the mapped `results`, or [] when the request fails or `results` is missing. */
  function SearchBase(o: Http.Outcome<Option<seq<BaseRecord>>>, currentYear: string, draws: nat -> real): (papers: seq<Paper>)
    ensures var body := Http.Body("BASE", o);
      |papers| == if body.Some? && body.value.Some? then |body.value.value| else 0
  {
    var body := Http.Body("BASE", o);
    if body.None? || body.value.None? then []
    else
      var results := body.value.value;
      seq(|results|, i requires 0 <= i < |results| => BasePaper(results[i], currentYear, draws(i)))
  }

  /**
   * The mappers fill a missing or empty title with 'Untitled', a missing or
   * empty abstract with 'No abstract available', a missing author list with
   * 'Unknown Author' and a missing date with the current one, and keep what is present.
   */
  lemma MappersKeepPresentFields(a: DoajArticle, c: CoreRecord, b: BaseRecord, currentYear: string, today: string, draw: real)
    ensures var p := DoajPaper(a, currentYear, draw);
      && (Bib(a).title.Some? && Bib(a).title.value != "" ==> p.title == Bib(a).title.value)
      && (Bib(a).title.None? || Bib(a).title.value == "" ==> p.title == Untitled)
      && (Bib(a).authorNames.Some? ==> p.authors == Bib(a).authorNames.value)
      && (Bib(a).authorNames.None? ==> p.authors == [UnknownAuthor])
      && (Bib(a).abstractText.Some? && Bib(a).abstractText.value != "" ==> p.abstractText == Bib(a).abstractText.value)
      && (Bib(a).abstractText.None? || Bib(a).abstractText.value == "" ==> p.abstractText == NoAbstract)
      && (Bib(a).year.None? || Bib(a).year.value == "" ==> p.publishedDate == currentYear)
      && (FirstLinkUrl(Bib(a)).None? && a.id.None? ==> p.url == DoajArticleLead + "undefined")
    ensures var p := CorePaper(c, today, draw);
      && (c.title.Some? && c.title.value != "" ==> p.title == c.title.value)
      && (c.title.None? || c.title.value == "" ==> p.title == Untitled)
      && (c.authors.Some? ==> p.authors == c.authors.value)
      && (c.authors.None? ==> p.authors == [UnknownAuthor])
      && (c.abstractText.Some? && c.abstractText.value != "" ==> p.abstractText == c.abstractText.value)
      && (c.abstractText.None? || c.abstractText.value == "" ==> p.abstractText == NoAbstract)
      && (c.publishedDate.None? || c.publishedDate.value == "" ==> p.publishedDate == today)
      && (c.downloadUrl.Some? && c.downloadUrl.value != "" ==> p.url == c.downloadUrl.value)
    ensures var p := BasePaper(b, currentYear, draw);
      && (b.title.Some? && b.title.value != "" ==> p.title == b.title.value)
      && (b.title.None? || b.title.value == "" ==> p.title == Untitled)
      && (b.author.Some? ==> p.authors == b.author.value)
      && (b.author.None? ==> p.authors == [UnknownAuthor])
      && (b.abstractText.Some? && b.abstractText.value != "" ==> p.abstractText == b.abstractText.value)
      && (b.abstractText.None? || b.abstractText.value == "" ==> p.abstractText == NoAbstract)
      && (b.year.None? || b.year.value == "" ==> p.publishedDate == currentYear)
      && (b.url.None? && b.link.None? ==> p.url == BaseHome)
  {
  }

  /** Every mapped record has the mapper's source, no citations and, for draws in [0, 1), a relevance in [0.6, 1.0). */
  lemma MappedFields(doaj: Http.Outcome<Option<seq<DoajArticle>>>, core: Http.Outcome<Option<seq<CoreRecord>>>,
                     base: Http.Outcome<Option<seq<BaseRecord>>>, currentYear: string, today: string, draws: nat -> real)
    requires forall k: nat :: 0.0 <= draws(k) < 1.0
    ensures forall p :: p in SearchDoaj(doaj, currentYear, draws) ==> p.source == DoajSource && p.citations == 0 && 0.6 <= p.relevanceScore < 1.0
    ensures forall p :: p in SearchCore(core, today, draws) ==> p.source == CoreSource && p.citations == 0 && 0.6 <= p.relevanceScore < 1.0
    ensures forall p :: p in SearchBase(base, currentYear, draws) ==> p.source == BaseSource && p.citations == 0 && 0.6 <= p.relevanceScore < 1.0
  {
  }

  // Merging, de-duplication and ranking

  /** The request outcomes and draws of one search, per provider. */
  datatype Responses = Responses(
    pubmedSearch: Http.Outcome<Option<seq<string>>>,
    pubmedDetails: Http.Outcome<string>,
    doaj: Http.Outcome<Option<seq<DoajArticle>>>,
    core: Http.Outcome<Option<seq<CoreRecord>>>,
    base: Http.Outcome<Option<seq<BaseRecord>>>,
    pubmedDraws: nat -> real,
    doajDraws: nat -> real,
    coreDraws: nat -> real,
    baseDraws: nat -> real)

  /** The provider results concatenated in the order PubMed, DOAJ, CORE, BASE; each provider catches its own errors. */
  function Gathered(r: Responses, currentYear: string, today: string): seq<Paper> {
    SearchPubMed(r.pubmedSearch, r.pubmedDetails, currentYear, r.pubmedDraws).papers
      + SearchDoaj(r.doaj, currentYear, r.doajDraws)
      + SearchCore(r.core, today, r.coreDraws)
      + SearchBase(r.base, currentYear, r.baseDraws)
  }

  /** The key of this service's `removeDuplicates`: the normalised title alone. */
  function TitleKey(p: Paper): string {
    PaperProcessor.Normalize(p.title)
  }

  /** `removeDuplicates(papers)`: the first paper of each title key, in input order. */
  method RemoveDuplicates(papers: seq<Paper>) returns (unique: seq<Paper>)
    ensures unique == Seqs.Dedupe(papers, TitleKey)
  {
    var seen: set<string> := {};
    unique := [];
    var i := 0;
    while i < |papers|
      invariant 0 <= i <= |papers|
      invariant unique + Seqs.DedupeFrom(papers[i..], TitleKey, seen) == Seqs.Dedupe(papers, TitleKey)
    {
      var key := TitleKey(papers[i]);
      assert papers[i..][1..] == papers[i + 1..];
      if key !in seen {
        seen := seen + {key};
        unique := unique + [papers[i]];
      }
      i := i + 1;
    }
  }

  /**
   * Title de-duplication leaves distinct title keys, is idempotent, and
   * keeps, for each of its papers, the first paper of the input with that
   * title key.
   */
  lemma TitleDedupe(papers: seq<Paper>)
    ensures Seqs.KeysDistinct(Seqs.Dedupe(papers, TitleKey), TitleKey)
    ensures Seqs.Dedupe(Seqs.Dedupe(papers, TitleKey), TitleKey) == Seqs.Dedupe(papers, TitleKey)
    ensures forall k :: 0 <= k < |Seqs.Dedupe(papers, TitleKey)| ==>
      exists i :: Seqs.FirstOfKey(papers, TitleKey, {}, i) && papers[i] == Seqs.Dedupe(papers, TitleKey)[k]
  {
    Seqs.DedupeDistinct(papers, TitleKey);
    Seqs.DedupeIdempotent(papers, TitleKey);
    forall k | 0 <= k < |Seqs.Dedupe(papers, TitleKey)|
      ensures exists i :: Seqs.FirstOfKey(papers, TitleKey, {}, i) && papers[i] == Seqs.Dedupe(papers, TitleKey)[k]
    {
      Seqs.KeptIsFirst(papers, TitleKey, {}, k);
    }
  }

  /** `query.toLowerCase().split(' ')`. */
  function QueryWords(query: string): seq<string> {
    Split(Lower(query), ' ')
  }

  /** What one query word adds: 3 when the title contains it, 1 when the abstract does. */
  function WordBonus(title: string, abstractText: string, word: string): nat {
    (if Contains(title, word) then 3 else 0) + (if Contains(abstractText, word) then 1 else 0)
  }

  /** The bonus the words earn, summed in order over the lower-cased title and abstract. */
  function Bonus(title: string, abstractText: string, words: seq<string>): (b: nat)
    ensures b <= 4 * |words|
    decreases |words|
  {
    if words == [] then 0
    else Bonus(title, abstractText, words[..|words| - 1]) + WordBonus(title, abstractText, words[|words| - 1])
  }

  /** `calculateRelevanceScore(paper, queryWords)`: the word bonus plus the paper's own relevance. */
  function RelevanceScore(p: Paper, words: seq<string>): real {
    Bonus(Lower(p.title), Lower(p.abstractText), words) as real + p.relevanceScore
  }

  /** The score is the paper's own relevance raised by a whole-number bonus of at most 4 per query word. */
  lemma ScoreRange(p: Paper, words: seq<string>)
    ensures p.relevanceScore <= RelevanceScore(p, words) <= p.relevanceScore + (4 * |words|) as real
    ensures (RelevanceScore(p, words) - p.relevanceScore).Floor as real == RelevanceScore(p, words) - p.relevanceScore
  {
    var b := Bonus(Lower(p.title), Lower(p.abstractText), words);
    var d := RelevanceScore(p, words) - p.relevanceScore;
    assert d == b as real;
    assert b as real <= (4 * |words|) as real;
    assert (b as real).Floor == b;
  }

  /** The word-by-word loop of `calculateRelevanceScore`. */
  method CalculateRelevanceScore(p: Paper, words: seq<string>) returns (score: real)
    ensures score == RelevanceScore(p, words)
  {
    var title := Lower(p.title);
    var abstractText := Lower(p.abstractText);
    var bonus := 0;
    var i := 0;
    while i < |words|
      invariant 0 <= i <= |words|
      invariant bonus == Bonus(title, abstractText, words[..i])
    {
      assert words[..i + 1][..i] == words[..i] && words[..i + 1][i] == words[i];
      assert Bonus(title, abstractText, words[..i + 1])
          == Bonus(title, abstractText, words[..i]) + WordBonus(title, abstractText, words[i]);
      if Contains(title, words[i]) {
        bonus := bonus + 3;
      }
      if Contains(abstractText, words[i]) {
        bonus := bonus + 1;
      }
      i := i + 1;
    }
    assert words[..i] == words;
    score := bonus as real + p.relevanceScore;
  }

  /** A word found in neither text adds nothing; one found in both adds the full 4. */
  lemma {:induction false} BonusExtremes(title: string, abstractText: string, words: seq<string>)
    ensures (forall k :: 0 <= k < |words| ==> !Contains(title, words[k]) && !Contains(abstractText, words[k]))
            ==> Bonus(title, abstractText, words) == 0
    ensures (forall k :: 0 <= k < |words| ==> Contains(title, words[k]) && Contains(abstractText, words[k]))
            ==> Bonus(title, abstractText, words) == 4 * |words|
    decreases |words|
  {
    if words != [] {
      var init := words[..|words| - 1];
      BonusExtremes(title, abstractText, init);
      assert forall k :: 0 <= k < |init| ==> init[k] == words[k];
    }
  }

  /** An empty query word, as two adjacent spaces produce, is contained in every text and always adds 4. */
  lemma EmptyWordAddsFour(title: string, abstractText: string)
    ensures WordBonus(title, abstractText, "") == 4
  {
    assert OccursAt(title, "", 0) && OccursAt(abstractText, "", 0);
  }

  /** The comparator `(a, b) => score(b) - score(a)`. */
  function ByScore(words: seq<string>): (Paper, Paper) -> real {
    (a: Paper, b: Paper) => RelevanceScore(b, words) - RelevanceScore(a, words)
  }

  /** Descending by score: each paper scores at least as much as every later one. */
  ghost predicate ScoresDescending(papers: seq<Paper>, words: seq<string>) {
    forall i, j :: 0 <= i < j < |papers| ==> RelevanceScore(papers[j], words) <= RelevanceScore(papers[i], words)
  }

  /** Papers of equal score stand in their input order, where `perm` maps each paper to its input position. */
  ghost predicate EqualScoresInInputOrder(papers: seq<Paper>, perm: seq<int>, words: seq<string>) {
    forall p, q :: 0 <= p < q < |papers| && q < |perm| && RelevanceScore(papers[p], words) == RelevanceScore(papers[q], words)
      ==> perm[p] < perm[q]
  }

  /**
   * `sortByRelevance(papers, query)`: the array reordered in place, descending
   * by score; the sort is stable, so papers of equal score keep their order.
   */
  method SortByRelevance(a: array<Paper>, query: string) returns (ghost perm: seq<int>)
    modifies a
    ensures multiset(a[..]) == multiset(old(a[..]))
    ensures ArraySort.Rearranges(a[..], old(a[..]), perm)
    ensures ScoresDescending(a[..], QueryWords(query))
    ensures EqualScoresInInputOrder(a[..], perm, QueryWords(query))
  {
    var words := QueryWords(query);
    var cmp := ByScore(words);
    perm := ArraySort.Sort(a, cmp);
    ghost var s := a[..];
    assert ArraySort.TransitiveOn(s, cmp);
    ArraySort.NeighboursOrderedToOrdered(s, cmp);
    assert forall i, j :: 0 <= i < j < |s| ==> cmp(s[i], s[j]) <= 0.0;
    forall p, q | 0 <= p < q < |s| && q < |perm| && RelevanceScore(s[p], words) == RelevanceScore(s[q], words)
      ensures perm[p] < perm[q]
    {
      assert cmp(s[p], s[q]) == 0.0;
    }
  }

  /**
   * `searchPapers(query)`: a live cached list is served; otherwise the four
   * providers' records, merged in order, de-duplicated by title and sorted
   * by descending score (equal scores in merge order), are cached for an
   * hour and returned. The cache is
   * read at `now` and written at `writeNow`, once the providers have answered.
   * No provider lets an error escape, so the catch that would answer [] never runs.
   */
  method SearchPapers(cache: Caching.Cache<Cached>, query: string, responses: Responses, currentYear: string,
                      today: string, now: int, writeNow: int) returns (papers: seq<Paper>, ghost perm: seq<int>)
    requires cache.Valid()
    modifies cache
    ensures cache.Valid()
    ensures (papers, cache.Contents())
         == PaperFlow(old(cache.Contents()), Caching.GenerateKey(KeyPrefix, [query]), Some(papers), now, writeNow,
                      cache.maxEntries, cache.ttlSeconds)
    ensures CachedPapers(old(cache.Contents()), Caching.GenerateKey(KeyPrefix, [query]), now).None? ==>
      && multiset(papers) == multiset(Seqs.Dedupe(Gathered(responses, currentYear, today), TitleKey))
      && ArraySort.Rearranges(papers, Seqs.Dedupe(Gathered(responses, currentYear, today), TitleKey), perm)
      && ScoresDescending(papers, QueryWords(query))
      && EqualScoresInInputOrder(papers, perm, QueryWords(query))
  {
    var key := Caching.GenerateKey(KeyPrefix, [query]);
    var cached := cache.Get(key, now);
    if cached.Some? && Truthy(cached.value) && cached.value.PaperList? {
      return cached.value.papers, [];
    }
    var allPapers := Gathered(responses, currentYear, today);
    papers, perm := DedupeAndRank(allPapers, query);
    cache.Set(key, PaperList(papers), Some(Config.CacheTtlSeconds), writeNow);
  }

  /**
   * The miss path of `searchPapers` after the merge: duplicates removed, then
   * sorted by descending score, papers of equal score in the order they were
   * merged (`perm` maps each to its place in the de-duplicated list).
   */
  method DedupeAndRank(allPapers: seq<Paper>, query: string) returns (papers: seq<Paper>, ghost perm: seq<int>)
    ensures multiset(papers) == multiset(Seqs.Dedupe(allPapers, TitleKey))
    ensures ArraySort.Rearranges(papers, Seqs.Dedupe(allPapers, TitleKey), perm)
    ensures ScoresDescending(papers, QueryWords(query))
    ensures EqualScoresInInputOrder(papers, perm, QueryWords(query))
  {
    var unique := RemoveDuplicates(allPapers);
    var a := new Paper[|unique|](i requires 0 <= i < |unique| => unique[i]);
    assert a[..] == unique;
    perm := SortByRelevance(a, query);
    papers := a[..];
  }
}
