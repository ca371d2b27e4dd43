/**
 * The paper record pipeline of src/services/paper-processor.js: validation,
 * default filling, de-duplication by a normalised title-and-first-author key,
 * ranking, truncation, grouping by source and summary statistics.
 *
 * Relevance scores are exact reals (JavaScript doubles in the source). A
 * publication date stays text; the comparator and the statistics read it
 * through `DateKey`, an order-preserving day number of an ISO date, which is
 * `None` where `new Date(...)` would give an Invalid Date.
 */
module PaperProcessor {
  import opened Wrappers
  import opened Strings
  import Seqs
  import ArraySort
  import Config

  /** The normalised paper record every provider produces. */
  datatype Paper = Paper(
    title: string,
    abstractText: string,
    authors: seq<string>,
    publishedDate: string,
    url: string,
    source: string,
    citations: int,
    relevanceScore: real)

  /**
   * A paper as an arbitrary JavaScript object: each field is present with the
   * type the pipeline expects, or it is not (`None`, covering a missing field
   * and a field of another type).
   */
  datatype PaperRecord = PaperRecord(
    title: Option<string>,
    abstractText: Option<string>,
    authors: Option<seq<string>>,
    publishedDate: Option<string>,
    url: Option<string>,
    source: Option<string>,
    citations: Option<int>,
    relevanceScore: Option<real>)

  function ToRecord(p: Paper): PaperRecord {
    PaperRecord(Some(p.title), Some(p.abstractText), Some(p.authors), Some(p.publishedDate),
                Some(p.url), Some(p.source), Some(p.citations), Some(p.relevanceScore))
  }

  /** `validatePaper`. */
  predicate ValidatePaper(r: PaperRecord) {
    && r.title.Some? && |r.title.value| > 0
    && r.authors.Some?
    && r.citations.Some?
    && r.relevanceScore.Some? && 0.0 <= r.relevanceScore.value <= 1.0
  }

  /** The two validation cases of the test suite: a complete paper passes, an empty title fails. */
  lemma ValidatePaperExamples()
    ensures ValidatePaper(PaperRecord(Some("Test Paper"), None, Some(["Author 1"]), None, None, None, Some(10), Some(0.8)))
    ensures !ValidatePaper(PaperRecord(Some(""), None, Some(["Author 1"]), None, None, None, Some(10), Some(0.8)))
  {
  }

  /** `field || fallback` on a text field: a missing or empty text takes the fallback. */
  function OrText(field: Option<string>, fallback: string): string {
    if field.Some? && field.value != "" then field.value else fallback
  }

  /**
   * `enrichPaper`: fills missing fields. `today` is the current date as
   * YYYY-MM-DD and `draw` the value `Math.random()` would return.
   */
  function EnrichPaper(r: PaperRecord, today: string, draw: real): Paper {
    Paper(
      OrText(r.title, "Untitled"),
      OrText(r.abstractText, ""),
      if r.authors.Some? then r.authors.value else ["Unknown"],
      OrText(r.publishedDate, today),
      OrText(r.url, ""),
      OrText(r.source, "Unknown"),
      if r.citations.Some? then r.citations.value else Config.DefaultCitations,
      if r.relevanceScore.Some? then r.relevanceScore.value else draw)
  }

  /**
   * On a valid paper, enrichment keeps title, authors, citations and relevance,
   * and the random draw is never used: the result is the same for every draw.
   */
  lemma EnrichValidPaper(r: PaperRecord, today: string, draw1: real, draw2: real)
    requires ValidatePaper(r)
    ensures var p := EnrichPaper(r, today, draw1);
            && p.title == r.title.value && p.authors == r.authors.value
            && p.citations == r.citations.value && p.relevanceScore == r.relevanceScore.value
            && p == EnrichPaper(r, today, draw2)
            && ValidatePaper(ToRecord(p))
  {
  }

  /** Enrichment changes nothing on a complete paper whose title, date and source are non-empty. */
  lemma EnrichComplete(p: Paper, today: string, draw: real)
    requires p.title != "" && p.publishedDate != "" && p.source != ""
    ensures EnrichPaper(ToRecord(p), today, draw) == p
  {
  }

  /** The characters the key keeps: `\w` and `\s`. */
  predicate KeptInKey(c: char) {
    IsWordChar(c) || IsSpace(c)
  }

  /** `s.toLowerCase().replace(/[^\w\s]/g, '')`. */
  function Normalize(s: string): (r: string)
    ensures |r| <= |s|
    ensures forall k :: 0 <= k < |r| ==> KeptInKey(r[k])
  {
    Seqs.Filter(KeptInKey, Lower(s))
  }

  /** `generatePaperKey`: the normalised title, '_', and the normalised first author if there is one. */
  function GeneratePaperKey(p: Paper): string {
    Normalize(p.title) + "_" + (if |p.authors| > 0 then Normalize(p.authors[0]) else "")
  }

  lemma {:induction false} LowerAppend(s: string, c: char)
    ensures Lower(s + [c]) == Lower(s) + [LowerChar(c)]
  {
  }

  /**
   * Appending punctuation to a title does not change its key: titles that differ
   * only in trailing punctuation collide.
   */
  lemma KeyIgnoresPunctuation(p: Paper, c: char)
    requires !KeptInKey(LowerChar(c))
    ensures GeneratePaperKey(p.(title := p.title + [c])) == GeneratePaperKey(p)
  {
    LowerAppend(p.title, c);
    Seqs.FilterAppend(KeptInKey, Lower(p.title), LowerChar(c));
  }

  /** Titles that differ only in letter case collide. */
  lemma KeyIgnoresCase(p: Paper, title: string)
    requires Lower(title) == Lower(p.title)
    ensures GeneratePaperKey(p.(title := title)) == GeneratePaperKey(p)
  {
  }

  /** A text of lower-case word and space characters is its own normal form. */
  lemma NormalizeKeeps(s: string)
    requires forall k :: 0 <= k < |s| ==> KeptInKey(s[k]) && !('A' <= s[k] <= 'Z')
    ensures Normalize(s) == s
  {
    assert Lower(s) == s;
    Seqs.FilterAll(KeptInKey, s);
  }

  /**
   * The key does not separate title from author: a title containing '_' and no
   * author can collide with a shorter title and an author.
   */
  lemma KeyIsNotInjective()
    ensures var p := Paper("a_b", "", [], "", "", "", 0, 0.0);
            var q := Paper("a", "", ["b_"], "", "", "", 0, 0.0);
            p != q && GeneratePaperKey(p) == GeneratePaperKey(q)
  {
    NormalizeKeeps("a_b");
    NormalizeKeeps("b_");
    NormalizeKeeps("a");
    assert "a_b" + "_" + "" == "a" + "_" + "b_";
  }

  /** `removeDuplicates`: keeps the first paper of each key, in input order. */
  method RemoveDuplicates(papers: seq<Paper>) returns (unique: seq<Paper>)
    ensures unique == Seqs.Dedupe(papers, GeneratePaperKey)
  {
    var seen: set<string> := {};
    unique := [];
    var i := 0;
    while i < |papers|
      invariant 0 <= i <= |papers|
      invariant unique + Seqs.DedupeFrom(papers[i..], GeneratePaperKey, seen) == Seqs.Dedupe(papers, GeneratePaperKey)
    {
      var paper := papers[i];
      var key := GeneratePaperKey(paper);
      assert papers[i..][1..] == papers[i + 1..];
      if key !in seen {
        seen := seen + {key};
        unique := unique + [paper];
      }
      i := i + 1;
    }
  }

  /** The duplicate case of the test suite: two identical papers and a third give two. */
  lemma RemoveDuplicatesExample(p1: Paper, p2: Paper)
    requires GeneratePaperKey(p1) != GeneratePaperKey(p2)
    ensures Seqs.Dedupe([p1, p1, p2], GeneratePaperKey) == [p1, p2]
  {
    var k1 := GeneratePaperKey(p1);
    assert [p1, p1, p2][1..] == [p1, p2];
    assert [p1, p2][1..] == [p2];
    assert [p2][1..] == [];
    assert Seqs.DedupeFrom([p2], GeneratePaperKey, {k1}) == [p2];
    assert Seqs.DedupeFrom([p1, p2], GeneratePaperKey, {k1}) == [p2];
    assert {} + {k1} == {k1};
    assert Seqs.DedupeFrom([p1, p1, p2], GeneratePaperKey, {}) == [p1] + Seqs.DedupeFrom([p1, p2], GeneratePaperKey, {k1});
  }

  function Abs(x: real): real {
    if x < 0.0 then -x else x
  }

  /** The day number of a date written YYYY, YYYY-MM or YYYY-MM-DD (optionally followed by a time). */
  function DateKey(s: string): Option<int> {
    if |s| < 4 || !AllDigits(s[..4]) then None
    else
      var year := DigitsValue(s[..4]);
      if |s| == 4 then Some(DayNumber(year, 1, 1))
      else if s[4] != '-' || |s| < 7 || !AllDigits(s[5..7]) then None
      else
        var month := DigitsValue(s[5..7]);
        if month < 1 || month > 12 then None
        else if |s| == 7 then Some(DayNumber(year, month, 1))
        else if s[7] != '-' || |s| < 10 || !AllDigits(s[8..10]) then None
        else
          var day := DigitsValue(s[8..10]);
          if day < 1 || day > 31 || (|s| > 10 && s[10] != 'T') then None
          else Some(DayNumber(year, month, day))
  }

  predicate AllDigits(s: string) {
    forall k :: 0 <= k < |s| ==> '0' <= s[k] <= '9'
  }

  function DigitsValue(s: string): nat
    requires AllDigits(s)
    decreases |s|
  {
    if s == [] then 0 else DigitsValue(s[..|s| - 1]) * 10 + (s[|s| - 1] as int - '0' as int)
  }

  /** An order-preserving day number: later dates get larger numbers. */
  function DayNumber(year: nat, month: nat, day: nat): int {
    year * 372 + (month - 1) * 31 + (day - 1)
  }

  /**
   * The comparator of `sortPapers`: negative puts `a` first. Relevance decides
   * when the scores differ by more than the threshold, then citations, then the
   * newer date; a comparison with an invalid date is NaN, which sorts as 0.
   */
  function Compare(a: Paper, b: Paper): real {
    if Abs(a.relevanceScore - b.relevanceScore) > Config.RelevanceThreshold then b.relevanceScore - a.relevanceScore
    else if a.citations != b.citations then (b.citations - a.citations) as real
    else match (DateKey(b.publishedDate), DateKey(a.publishedDate))
      case (Some(kb), Some(ka)) => (kb - ka) as real
      case _ => 0.0
  }

  /** The ranking rule, read off the comparator's sign. */
  lemma CompareRanks(a: Paper, b: Paper)
    ensures Abs(a.relevanceScore - b.relevanceScore) > 0.1 ==>
              (Compare(a, b) < 0.0 <==> a.relevanceScore > b.relevanceScore)
    ensures Abs(a.relevanceScore - b.relevanceScore) <= 0.1 && a.citations != b.citations ==>
              (Compare(a, b) < 0.0 <==> a.citations > b.citations)
    ensures Abs(a.relevanceScore - b.relevanceScore) <= 0.1 && a.citations == b.citations ==>
              (Compare(a, b) < 0.0 <==> (DateKey(a.publishedDate).Some? && DateKey(b.publishedDate).Some?
                                          && DateKey(a.publishedDate).value > DateKey(b.publishedDate).value))
  {
  }

  /** Swapping the arguments of the comparator negates it. */
  lemma CompareAntisymmetric()
    ensures ArraySort.Antisymmetric(Compare)
  {
    forall a, b
      ensures Compare(a, b) == -Compare(b, a)
    {
    }
  }

  /**
   * The comparator is not transitive: relevance 0.00, 0.08 and 0.16 are each
   * within the threshold of their neighbour but not of each other, so citations
   * order a before b and b before c while relevance orders c before a.
   */
  lemma CompareNotTransitive()
    ensures var a := Paper("A", "", [], "2024-01-01", "", "", 10, 0.00);
            var b := Paper("B", "", [], "2024-01-01", "", "", 5, 0.08);
            var c := Paper("C", "", [], "2024-01-01", "", "", 0, 0.16);
            Compare(a, b) < 0.0 && Compare(b, c) < 0.0 && Compare(c, a) < 0.0
  {
  }

  /** Every date parses to a day number. */
  predicate DatesValid(s: seq<Paper>) {
    forall k :: 0 <= k < |s| ==> DateKey(s[k].publishedDate).Some?
  }

  /** Every two relevance scores are within the threshold. */
  predicate ScoresClose(s: seq<Paper>) {
    forall i, j :: 0 <= i < |s| && 0 <= j < |s| ==> Abs(s[i].relevanceScore - s[j].relevanceScore) <= Config.RelevanceThreshold
  }

  /**
   * A hypothesis under which the comparator is consistent: when all scores are
   * within the threshold of each other and all dates are valid, the order is by
   * citations and then by date, which is transitive.
   */
  lemma CloseScoresTransitive(s: seq<Paper>)
    requires ScoresClose(s) && DatesValid(s)
    ensures ArraySort.TransitiveOn(s, Compare)
  {
    forall i, j, k |
      && 0 <= i < |s| && 0 <= j < |s| && 0 <= k < |s|
      && Compare(s[i], s[j]) <= 0.0 && Compare(s[j], s[k]) <= 0.0
      ensures Compare(s[i], s[k]) <= 0.0
    {
      var a, b, c := s[i], s[j], s[k];
      assert DateKey(a.publishedDate).Some? && DateKey(b.publishedDate).Some? && DateKey(c.publishedDate).Some?;
      assert Abs(a.relevanceScore - b.relevanceScore) <= 0.1;
      assert Abs(b.relevanceScore - c.relevanceScore) <= 0.1;
      assert Abs(a.relevanceScore - c.relevanceScore) <= 0.1;
    }
  }

  /**
   * `sortPapers`: reorders the array in place by the comparator, stably: `perm`
   * says where each paper came from, and papers the comparator ties keep their
   * input order.
   */
  method SortPapers(a: array<Paper>) returns (ghost perm: seq<int>)
    modifies a
    ensures multiset(a[..]) == multiset(old(a[..]))
    ensures ArraySort.NeighboursOrdered(a[..], Compare)
    ensures ArraySort.Rearranges(a[..], old(a[..]), perm)
    ensures ArraySort.InversionsStrict(a[..], perm, a.Length, Compare)
    ensures ArraySort.TiesInInputOrder(a[..], perm, Compare)
  {
    CompareAntisymmetric();
    perm := ArraySort.Sort(a, Compare);
  }

  /**
   * The ranking case of the test suite: relevance 0.5 with 10 citations against
   * relevance 0.9 with 5; any ordered arrangement puts the second paper first.
   */
  lemma SortExample(s: seq<Paper>)
    requires multiset(s) == multiset([Paper("Paper 1", "", [], "2024-01-01", "", "", 10, 0.5),
                                      Paper("Paper 2", "", [], "2024-01-01", "", "", 5, 0.9)])
    requires ArraySort.NeighboursOrdered(s, Compare)
    ensures |s| == 2 && s[0].title == "Paper 2"
  {
    var p1 := Paper("Paper 1", "", [], "2024-01-01", "", "", 10, 0.5);
    var p2 := Paper("Paper 2", "", [], "2024-01-01", "", "", 5, 0.9);
    assert |s| == |multiset(s)| == 2;
    assert s == [s[0], s[1]];
    assert multiset(s) == multiset{s[0], s[1]};
    assert s[0] in multiset(s) && s[1] in multiset(s);
    assert Compare(p1, p2) > 0.0;
    assert Compare(s[0], s[1]) <= 0.0;
  }

  /** The valid papers of `papers`, enriched (the filter and map of `processPapers`). */
  function Prepare(papers: seq<PaperRecord>, today: string): (r: seq<Paper>)
    ensures |r| <= |papers|
    ensures forall p :: p in r ==> ValidatePaper(ToRecord(p))
  {
    var valid := Seqs.Filter(ValidatePaper, papers);
    seq(|valid|, i requires 0 <= i < |valid| => EnrichPaper(valid[i], today, 0.0))
  }

  /**
   * `processPapers`: validate, enrich, remove duplicates, sort. Every result is
   * valid and has its own key; the result is a reordering of the de-duplicated
   * papers with ordered neighbours, and fully ordered when the comparator is
   * consistent on it. `perm` maps each result to its place in the
   * de-duplicated list: a pair is reversed only where the comparator strictly
   * says so, so tied papers keep their order of arrival. `today` stands for
   * the current date.
   */
  method ProcessPapers(papers: seq<PaperRecord>, today: string) returns (r: seq<Paper>, ghost perm: seq<int>)
    ensures forall p :: p in r ==> ValidatePaper(ToRecord(p))
    ensures Seqs.KeysDistinct(r, GeneratePaperKey)
    ensures |r| <= |papers|
    ensures multiset(r) == multiset(Seqs.Dedupe(Prepare(papers, today), GeneratePaperKey))
    ensures ArraySort.Rearranges(r, Seqs.Dedupe(Prepare(papers, today), GeneratePaperKey), perm)
    ensures ArraySort.InversionsStrict(r, perm, |r|, Compare)
    ensures ArraySort.TiesInInputOrder(r, perm, Compare)
    ensures ArraySort.NeighboursOrdered(r, Compare)
    ensures ArraySort.TransitiveOn(r, Compare) ==> ArraySort.Ordered(r, Compare)
  {
    var valid := Prepare(papers, today);
    var unique := RemoveDuplicates(valid);
    var a := new Paper[|unique|](i requires 0 <= i < |unique| => unique[i]);
    assert a[..] == unique;
    perm := SortPapers(a);
    r := a[..];
    Seqs.DedupeDistinct(valid, GeneratePaperKey);
    Seqs.KeysDistinctPermutation(unique, r, GeneratePaperKey);
    assert |r| == |multiset(r)| == |multiset(unique)| == |unique|;
    forall p | p in r
      ensures ValidatePaper(ToRecord(p))
    {
      assert p in multiset(unique);
    }
    if ArraySort.TransitiveOn(r, Compare) {
      ArraySort.NeighboursOrderedToOrdered(r, Compare);
    }
  }

  /** `limitPapers(papers, limit)`: `papers.slice(0, limit)`, where a negative limit counts from the end. */
  function LimitPapers(papers: seq<Paper>, limit: int := Config.MaxTotalPapers): (r: seq<Paper>)
    ensures r <= papers
    ensures 0 <= limit ==> |r| == if limit < |papers| then limit else |papers|
    ensures limit < 0 ==> |r| == if |papers| + limit > 0 then |papers| + limit else 0
  {
    var end := if limit >= 0 then limit else |papers| + limit;
    if end <= 0 then [] else if end >= |papers| then papers else papers[..end]
  }

  /** `paper.source || 'Unknown'`. */
  function SourceOf(p: Paper): string {
    if p.source == "" then "Unknown" else p.source
  }

  function SourceIs(s: string): Paper -> bool {
    p => SourceOf(p) == s
  }

  /** The papers of source `s`, in input order. */
  function OfSource(papers: seq<Paper>, s: string): seq<Paper> {
    Seqs.Filter(SourceIs(s), papers)
  }

  /** The sources present among `papers`. */
  function SourceSet(papers: seq<Paper>): set<string> {
    set p | p in papers :: SourceOf(p)
  }

  /** `groupPapersBySource`: one group per source present, each the papers of that source in input order. */
  method GroupPapersBySource(papers: seq<Paper>) returns (groups: map<string, seq<Paper>>)
    ensures groups.Keys == SourceSet(papers)
    ensures forall s :: s in groups ==> groups[s] == OfSource(papers, s)
  {
    groups := map[];
    var i := 0;
    while i < |papers|
      invariant 0 <= i <= |papers|
      invariant groups.Keys == SourceSet(papers[..i])
      invariant forall s :: s in groups ==> groups[s] == OfSource(papers[..i], s)
    {
      var paper := papers[i];
      var source := SourceOf(paper);
      assert papers[..i + 1] == papers[..i] + [paper];
      GroupsStep(papers[..i], paper, groups);
      if source !in groups {
        groups := groups[source := []];
      }
      groups := groups[source := groups[source] + [paper]];
      i := i + 1;
    }
    assert papers[..i] == papers;
  }

  /** The groups after one more paper: the paper joins the end of its source's group. */
  lemma GroupsStep(papers: seq<Paper>, p: Paper, groups: map<string, seq<Paper>>)
    requires groups.Keys == SourceSet(papers)
    requires forall s :: s in groups ==> groups[s] == OfSource(papers, s)
    ensures var src := SourceOf(p);
            var groups' := groups[src := (if src in groups then groups[src] else []) + [p]];
            && groups'.Keys == SourceSet(papers + [p])
            && forall s :: s in groups' ==> groups'[s] == OfSource(papers + [p], s)
  {
    var src := SourceOf(p);
    var groups' := groups[src := (if src in groups then groups[src] else []) + [p]];
    SourceSetAppend(papers, p);
    forall s | s in groups'
      ensures groups'[s] == OfSource(papers + [p], s)
    {
      OfSourceAppend(papers, p, s);
      if s == src && src !in groups {
        AbsentSourceEmpty(papers, src);
      }
    }
  }

  /** One more paper adds its own source to the sources present. */
  lemma SourceSetAppend(papers: seq<Paper>, p: Paper)
    ensures SourceSet(papers + [p]) == SourceSet(papers) + {SourceOf(p)}
  {
    forall s | s in SourceSet(papers + [p])
      ensures s in SourceSet(papers) + {SourceOf(p)}
    {
      var q :| q in papers + [p] && SourceOf(q) == s;
      if q != p {
        assert q in papers;
      }
    }
  }

  /** One more paper joins the end of its own source's papers and no other. */
  lemma OfSourceAppend(papers: seq<Paper>, p: Paper, s: string)
    ensures OfSource(papers + [p], s) == OfSource(papers, s) + (if SourceOf(p) == s then [p] else [])
  {
    Seqs.FilterAppend(SourceIs(s), papers, p);
  }

  /** A source no paper has has no papers. */
  lemma AbsentSourceEmpty(papers: seq<Paper>, s: string)
    requires s !in SourceSet(papers)
    ensures OfSource(papers, s) == []
  {
    if OfSource(papers, s) != [] {
      var q := OfSource(papers, s)[0];
      Seqs.FilterMembers(SourceIs(s), papers, q);
      assert false;
    }
  }

  /**
   * The groups partition the papers: each paper lies in the group of its own
   * source, every group holds only papers of its source, and a group keeps input order.
   */
  lemma GroupsPartition(papers: seq<Paper>, s: string)
    ensures forall p :: p in OfSource(papers, s) <==> p in papers && SourceOf(p) == s
    ensures Seqs.IsSubsequence(OfSource(papers, s), papers)
  {
    forall p
      ensures p in OfSource(papers, s) <==> p in papers && SourceOf(p) == s
    {
      Seqs.FilterMembers(SourceIs(s), papers, p);
    }
    Seqs.FilterIsSubsequence(SourceIs(s), papers);
  }

  /** Date bookkeeping of `getPaperStatistics`: nothing seen yet, or a `Date` (its key, or `None` for Invalid Date). */
  datatype DateStat = NoDate | DateOf(key: Option<int>)

  datatype CitationStats = CitationStats(total: int, average: int, max: int, min: int)

  datatype Statistics = Statistics(
    total: nat,
    sources: map<string, nat>,
    citationStats: CitationStats,
    earliest: DateStat,
    latest: DateStat)

  /** The number of papers of source `s`. */
  function Count(papers: seq<Paper>, s: string): nat {
    |OfSource(papers, s)|
  }

  function CitationTotal(papers: seq<Paper>): int
    decreases |papers|
  {
    if papers == [] then 0 else CitationTotal(papers[..|papers| - 1]) + papers[|papers| - 1].citations
  }

  /** `Math.max` folded from 0. */
  function MaxCitations(papers: seq<Paper>): int
    decreases |papers|
  {
    if papers == [] then 0
    else
      var m := MaxCitations(papers[..|papers| - 1]);
      var c := papers[|papers| - 1].citations;
      if c > m then c else m
  }

  /** `Math.min` folded from Infinity (`None`). */
  function MinCitations(papers: seq<Paper>): Option<int>
    decreases |papers|
  {
    if papers == [] then None
    else
      var m := MinCitations(papers[..|papers| - 1]);
      var c := papers[|papers| - 1].citations;
      if m.None? || c < m.value then Some(c) else m
  }

  /** One step of the earliest-date update: a `Date` is always truthy, and a comparison with NaN is false. */
  function EarlierStep(cur: DateStat, date: Option<int>): DateStat {
    if cur.NoDate? then DateOf(date)
    else if cur.key.Some? && date.Some? && date.value < cur.key.value then DateOf(date)
    else cur
  }

  function LaterStep(cur: DateStat, date: Option<int>): DateStat {
    if cur.NoDate? then DateOf(date)
    else if cur.key.Some? && date.Some? && date.value > cur.key.value then DateOf(date)
    else cur
  }

  /** The parsed publication dates of the papers, in order. */
  function Dates(papers: seq<Paper>): (dates: seq<Option<int>>)
    ensures |dates| == |papers|
    decreases |papers|
  {
    if papers == [] then [] else Dates(papers[..|papers| - 1]) + [DateKey(papers[|papers| - 1].publishedDate)]
  }

  lemma {:induction false} DatesAt(papers: seq<Paper>)
    ensures forall k :: 0 <= k < |papers| ==> Dates(papers)[k] == DateKey(papers[k].publishedDate)
    decreases |papers|
  {
    if papers != [] {
      var init := papers[..|papers| - 1];
      DatesAt(init);
      forall k | 0 <= k < |init| ensures papers[k] == init[k] { }
    }
  }

  /** The earliest-date fold over parsed dates. */
  function EarliestOf(dates: seq<Option<int>>): DateStat
    decreases |dates|
  {
    if dates == [] then NoDate else EarlierStep(EarliestOf(dates[..|dates| - 1]), dates[|dates| - 1])
  }

  function LatestOf(dates: seq<Option<int>>): DateStat
    decreases |dates|
  {
    if dates == [] then NoDate else LaterStep(LatestOf(dates[..|dates| - 1]), dates[|dates| - 1])
  }

  function Earliest(papers: seq<Paper>): DateStat {
    EarliestOf(Dates(papers))
  }

  function Latest(papers: seq<Paper>): DateStat {
    LatestOf(Dates(papers))
  }

  /** `Math.round(total / n)` for n > 0: halves round up. */
  function RoundDiv(total: int, n: nat): int
    requires n > 0
  {
    (2 * total + n) / (2 * n)
  }

  /** The rounded quotient r is the whole number with r - 1/2 <= total / n < r + 1/2. */
  lemma RoundDivNearest(total: int, n: nat)
    requires n > 0
    ensures var r := RoundDiv(total, n); 2 * n * r <= 2 * total + n < 2 * n * (r + 1)
  {
  }

  /** `getPaperStatistics`. */
  method GetPaperStatistics(papers: seq<Paper>) returns (stats: Statistics)
    ensures stats.total == |papers|
    ensures stats.sources.Keys == SourceSet(papers)
    ensures forall s :: s in stats.sources ==> stats.sources[s] == Count(papers, s)
    ensures stats.citationStats.total == CitationTotal(papers)
    ensures stats.citationStats.average == if papers == [] then 0 else RoundDiv(CitationTotal(papers), |papers|)
    ensures stats.citationStats.max == MaxCitations(papers)
    ensures stats.citationStats.min == if papers == [] then 0 else MinCitations(papers).value
    ensures stats.earliest == Earliest(papers) && stats.latest == Latest(papers)
  {
    var sources, total, max, min, earliest, latest := TallyPapers(papers);
    var average := if |papers| > 0 then RoundDiv(total, |papers|) else 0;
    var minValue := if min.None? then 0 else min.value;
    stats := Statistics(|papers|, sources, CitationStats(total, average, max, minValue), earliest, latest);
  }

  /** The `forEach` of `getPaperStatistics`: every fold over the papers in one pass. */
  method TallyPapers(papers: seq<Paper>)
    returns (sources: map<string, nat>, total: int, max: int, min: Option<int>, earliest: DateStat, latest: DateStat)
    ensures SourceCounts(sources, papers)
    ensures total == CitationTotal(papers) && max == MaxCitations(papers) && min == MinCitations(papers)
    ensures earliest == Earliest(papers) && latest == Latest(papers)
    ensures papers != [] ==> min.Some?
  {
    sources := map[];
    total, max := 0, 0;
    min := None;
    earliest, latest := NoDate, NoDate;
    var i := 0;
    while i < |papers|
      invariant 0 <= i <= |papers|
      invariant SourceCounts(sources, papers[..i])
      invariant total == CitationTotal(papers[..i])
      invariant max == MaxCitations(papers[..i])
      invariant min == MinCitations(papers[..i])
      invariant earliest == Earliest(papers[..i]) && latest == Latest(papers[..i])
      invariant i > 0 ==> min.Some?
    {
      var paper := papers[i];
      var source := SourceOf(paper);
      assert papers[..i + 1] == papers[..i] + [paper];
      SourceCountsStep(papers[..i], paper, sources);
      StatisticsStep(papers[..i], paper);
      sources := sources[source := (if source in sources then sources[source] else 0) + 1];
      total := total + paper.citations;
      max := if paper.citations > max then paper.citations else max;
      min := if min.None? || paper.citations < min.value then Some(paper.citations) else min;
      var date := DateKey(paper.publishedDate);
      earliest := EarlierStep(earliest, date);
      latest := LaterStep(latest, date);
      i := i + 1;
    }
    assert papers[..i] == papers;
  }

  /** The citation and date statistics after one more paper: one more step of each fold. */
  lemma StatisticsStep(papers: seq<Paper>, p: Paper)
    ensures CitationTotal(papers + [p]) == CitationTotal(papers) + p.citations
    ensures MaxCitations(papers + [p]) == if p.citations > MaxCitations(papers) then p.citations else MaxCitations(papers)
    ensures var m := MinCitations(papers);
      MinCitations(papers + [p]) == if m.None? || p.citations < m.value then Some(p.citations) else m
    ensures Earliest(papers + [p]) == EarlierStep(Earliest(papers), DateKey(p.publishedDate))
    ensures Latest(papers + [p]) == LaterStep(Latest(papers), DateKey(p.publishedDate))
  {
    var ps := papers + [p];
    assert ps[..|ps| - 1] == papers;
    var dates := Dates(papers);
    var date := DateKey(p.publishedDate);
    assert Dates(ps) == dates + [date];
    assert (dates + [date])[..|dates|] == dates;
  }

  /** `counts` maps exactly the sources of `papers`, each to its number of papers. */
  predicate SourceCounts(counts: map<string, nat>, papers: seq<Paper>) {
    counts.Keys == SourceSet(papers) && forall s :: s in counts ==> counts[s] == Count(papers, s)
  }

  /** The source counts after one more paper: its source's count goes up by one, from 0 when it is new. */
  lemma SourceCountsStep(papers: seq<Paper>, p: Paper, counts: map<string, nat>)
    requires SourceCounts(counts, papers)
    ensures var src := SourceOf(p);
            SourceCounts(counts[src := (if src in counts then counts[src] else 0) + 1], papers + [p])
  {
    var src := SourceOf(p);
    var counts' := counts[src := (if src in counts then counts[src] else 0) + 1];
    SourceSetAppend(papers, p);
    forall s | s in counts'
      ensures counts'[s] == Count(papers + [p], s)
    {
      OfSourceAppend(papers, p, s);
      if s == src && src !in counts {
        AbsentSourceEmpty(papers, src);
      }
    }
  }

  /** The maximum starts at 0: it bounds every citation count and is 0 or one of them. */
  lemma {:induction false} MaxCitationsBounds(papers: seq<Paper>)
    ensures MaxCitations(papers) >= 0
    ensures forall k :: 0 <= k < |papers| ==> papers[k].citations <= MaxCitations(papers)
    ensures MaxCitations(papers) == 0 || exists k :: 0 <= k < |papers| && papers[k].citations == MaxCitations(papers)
    decreases |papers|
  {
    if papers != [] {
      var init := papers[..|papers| - 1];
      MaxCitationsBounds(init);
      forall k | 0 <= k < |init| ensures papers[k] == init[k] { }
      if MaxCitations(papers) != 0 && MaxCitations(papers) == MaxCitations(init) {
        var k :| 0 <= k < |init| && init[k].citations == MaxCitations(init);
        assert papers[k].citations == MaxCitations(papers);
      }
    }
  }

  /** The minimum of a non-empty list is one of its citation counts and bounds all of them. */
  lemma {:induction false} MinCitationsBounds(papers: seq<Paper>)
    ensures MinCitations(papers).None? <==> papers == []
    ensures papers != [] ==>
              && (forall k :: 0 <= k < |papers| ==> MinCitations(papers).value <= papers[k].citations)
              && exists k :: 0 <= k < |papers| && papers[k].citations == MinCitations(papers).value
    decreases |papers|
  {
    if papers != [] {
      var init := papers[..|papers| - 1];
      MinCitationsBounds(init);
      forall k | 0 <= k < |init| ensures papers[k] == init[k] { }
      var m := MinCitations(papers).value;
      if init != [] && m == MinCitations(init).value {
        var k :| 0 <= k < |init| && init[k].citations == m;
        assert papers[k].citations == m;
      } else {
        assert papers[|papers| - 1].citations == m;
      }
    }
  }

  /** The sum of `Count(papers, s)` over the keys `keys`. */
  function SumCounts(papers: seq<Paper>, keys: seq<string>): nat
    decreases |keys|
  {
    if keys == [] then 0 else Count(papers, keys[0]) + SumCounts(papers, keys[1..])
  }

  /** How many entries of `keys` equal `s`. */
  function Occurrences(keys: seq<string>, s: string): nat
    decreases |keys|
  {
    if keys == [] then 0 else (if keys[0] == s then 1 else 0) + Occurrences(keys[1..], s)
  }

  lemma {:induction false} SumCountsAppend(papers: seq<Paper>, p: Paper, keys: seq<string>)
    ensures SumCounts(papers + [p], keys) == SumCounts(papers, keys) + Occurrences(keys, SourceOf(p))
    decreases |keys|
  {
    if keys != [] {
      Seqs.FilterAppend(SourceIs(keys[0]), papers, p);
      SumCountsAppend(papers, p, keys[1..]);
    }
  }

  /**
   * The source counts sum to the total: over any list of source names that
   * names every source present exactly once, the counts add up to the number of papers.
   */
  lemma {:induction false} SourceCountsSumToTotal(papers: seq<Paper>, keys: seq<string>)
    requires forall p :: p in papers ==> Occurrences(keys, SourceOf(p)) == 1
    ensures SumCounts(papers, keys) == |papers|
    decreases |papers|
  {
    if papers == [] {
      SumCountsEmpty(keys);
    } else {
      var init, p := papers[..|papers| - 1], papers[|papers| - 1];
      assert papers == init + [p];
      SourceCountsSumToTotal(init, keys);
      SumCountsAppend(init, p, keys);
    }
  }

  lemma {:induction false} SumCountsEmpty(keys: seq<string>)
    ensures SumCounts([], keys) == 0
    decreases |keys|
  {
    if keys != [] {
      SumCountsEmpty(keys[1..]);
    }
  }

  /** With all dates valid, the earliest date is a date of the list and no later than any of them. */
  lemma EarliestIsMinimum(papers: seq<Paper>)
    requires DatesValid(papers)
    ensures papers == [] <==> Earliest(papers).NoDate?
    ensures papers != [] ==>
              && Earliest(papers).key.Some?
              && (forall k :: 0 <= k < |papers| ==> Earliest(papers).key.value <= DateKey(papers[k].publishedDate).value)
              && exists k :: 0 <= k < |papers| && DateKey(papers[k].publishedDate) == Earliest(papers).key
  {
    var dates := Dates(papers);
    DatesAt(papers);
    EarliestOfIsMinimum(dates);
    if papers != [] {
      var k :| 0 <= k < |dates| && dates[k] == EarliestOf(dates).key;
      assert DateKey(papers[k].publishedDate) == Earliest(papers).key;
    }
  }

  lemma {:induction false} EarliestOfIsMinimum(dates: seq<Option<int>>)
    requires forall k :: 0 <= k < |dates| ==> dates[k].Some?
    ensures dates == [] <==> EarliestOf(dates).NoDate?
    ensures dates != [] ==>
              && EarliestOf(dates).key.Some?
              && (forall k :: 0 <= k < |dates| ==> EarliestOf(dates).key.value <= dates[k].value)
              && exists k :: 0 <= k < |dates| && dates[k] == EarliestOf(dates).key
    decreases |dates|
  {
    if dates != [] {
      var init := dates[..|dates| - 1];
      EarliestOfIsMinimum(init);
      var e := EarliestOf(dates).key;
      if init != [] && e == EarliestOf(init).key {
        var k :| 0 <= k < |init| && init[k] == e;
        assert dates[k] == e;
      } else {
        assert dates[|dates| - 1] == e;
      }
    }
  }

  /** With all dates valid, the latest date is a date of the list and no earlier than any of them. */
  lemma LatestIsMaximum(papers: seq<Paper>)
    requires DatesValid(papers)
    ensures papers == [] <==> Latest(papers).NoDate?
    ensures papers != [] ==>
              && Latest(papers).key.Some?
              && (forall k :: 0 <= k < |papers| ==> DateKey(papers[k].publishedDate).value <= Latest(papers).key.value)
              && exists k :: 0 <= k < |papers| && DateKey(papers[k].publishedDate) == Latest(papers).key
  {
    var dates := Dates(papers);
    DatesAt(papers);
    LatestOfIsMaximum(dates);
    if papers != [] {
      var k :| 0 <= k < |dates| && dates[k] == LatestOf(dates).key;
      assert DateKey(papers[k].publishedDate) == Latest(papers).key;
    }
  }

  lemma {:induction false} LatestOfIsMaximum(dates: seq<Option<int>>)
    requires forall k :: 0 <= k < |dates| ==> dates[k].Some?
    ensures dates == [] <==> LatestOf(dates).NoDate?
    ensures dates != [] ==>
              && LatestOf(dates).key.Some?
              && (forall k :: 0 <= k < |dates| ==> dates[k].value <= LatestOf(dates).key.value)
              && exists k :: 0 <= k < |dates| && dates[k] == LatestOf(dates).key
    decreases |dates|
  {
    if dates != [] {
      var init := dates[..|dates| - 1];
      LatestOfIsMaximum(init);
      var e := LatestOf(dates).key;
      if init != [] && e == LatestOf(init).key {
        var k :| 0 <= k < |init| && init[k] == e;
        assert dates[k] == e;
      } else {
        assert dates[|dates| - 1] == e;
      }
    }
  }

  /** An Invalid Date first in the list sticks: no later date replaces it. */
  lemma InvalidFirstDateSticks(papers: seq<Paper>)
    requires papers != [] && DateKey(papers[0].publishedDate).None?
    ensures Earliest(papers) == DateOf(None) && Latest(papers) == DateOf(None)
  {
    DatesAt(papers);
    InvalidFirstSticks(Dates(papers));
  }

  lemma {:induction false} InvalidFirstSticks(dates: seq<Option<int>>)
    requires dates != [] && dates[0].None?
    ensures EarliestOf(dates) == DateOf(None) && LatestOf(dates) == DateOf(None)
    decreases |dates|
  {
    if |dates| > 1 {
      InvalidFirstSticks(dates[..|dates| - 1]);
    }
  }
}
