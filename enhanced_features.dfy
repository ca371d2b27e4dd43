/**
 * The computations inside the browser helpers of
 * frontend/js/enhanced-features.js: the wrap-around index of keyboard
 * navigation between paper cards, the query picked out of an uploaded text,
 * the search suggestions, the most searched category, and the trimming of
 * the stored recent searches. The page, its events and its storage are
 * outside the model; their values come in as arguments.
 */
module EnhancedFeatures {
  import opened Wrappers
  import opened Strings
  import Seqs
  import Arith

  // Keyboard navigation

  /**
   * The index `navigatePapers` moves to from `current` among `count` cards:
   * ArrowDown goes forward and any other key back, wrapping at both ends.
   * `current` is -1 when no card has the focus.
   */
  function NextIndex(direction: string, current: int, count: nat): int {
    if direction == "ArrowDown" then
      (if current < count - 1 then current + 1 else 0)
    else
      (if current > 0 then current - 1 else count - 1)
  }

  /** The card that receives the focus, if the next index names one. */
  function Focused(direction: string, current: int, count: nat): (r: Option<nat>)
    ensures r.Some? ==> r.value < count
  {
    var next := NextIndex(direction, current, count);
    if 0 <= next < count then Some(next) else None
  }

  /**
   * With at least one card and a current index in {-1} ∪ [0, count),
   * ArrowDown moves one forward modulo the count (from -1 to the first
   * card), every other key one back modulo the count (from -1 to the last
   * card), and some card always receives the focus; with no card none does.
   */
  lemma NavigationWraps(direction: string, current: int, count: nat)
    requires -1 <= current < count
    ensures count > 0 ==> 0 <= NextIndex(direction, current, count) < count
    ensures count > 0 && direction == "ArrowDown" ==> NextIndex(direction, current, count) == (current + 1) % count
    ensures count > 0 && direction != "ArrowDown" ==>
      NextIndex(direction, current, count) == (if current == -1 then count - 1 else (current - 1) % count)
    ensures Focused(direction, current, count).Some? <==> count > 0
  {
    if count > 0 {
      if current == count - 1 {
        Arith.DivModOf(current + 1, count, 1, 0);
      } else {
        Arith.DivModOf(current + 1, count, 0, current + 1);
      }
      if current == 0 {
        Arith.DivModOf(current - 1, count, -1, count - 1);
      } else if current > 0 {
        Arith.DivModOf(current - 1, count, 0, current - 1);
      }
    }
  }

  /** From a focused card, ArrowDown then ArrowUp comes back to it, and so does ArrowUp then ArrowDown. */
  lemma NavigationRoundTrip(current: int, count: nat)
    requires 0 <= current < count
    ensures NextIndex("ArrowUp", NextIndex("ArrowDown", current, count), count) == current
    ensures NextIndex("ArrowDown", NextIndex("ArrowUp", current, count), count) == current
  {
  }

  // Uploaded text

  /** A line long enough to be taken for a query: more than 10 UTF-16 code units once trimmed. */
  predicate LongLine(line: string) {
    Utf16Length(Trim(line)) > 10
  }

  /** `lines.filter(long)[0] || null`: a long line is never empty, so never falsy. */
  function FirstLongLine(lines: seq<string>): Option<string> {
    var long := Seqs.Filter(LongLine, lines);
    if long == [] then None else Some(long[0])
  }

  /** `extractQueryFromText(text)`: the first long line of the text, as written, or null. */
  function ExtractQueryFromText(text: string): Option<string> {
    FirstLongLine(Split(text, '\n'))
  }

  /**
   * There is no line to take exactly when no line is long; otherwise the
   * line taken is the untrimmed line at some index `i` that is long while
   * every line before it is not.
   */
  lemma {:induction false} TakesFirstLongLine(lines: seq<string>)
    ensures FirstLongLine(lines).None? <==> forall k :: 0 <= k < |lines| ==> !LongLine(lines[k])
    ensures FirstLongLine(lines).Some? ==>
      exists i :: 0 <= i < |lines| && lines[i] == FirstLongLine(lines).value && LongLine(lines[i])
                  && forall k :: 0 <= k < i ==> !LongLine(lines[k])
  {
    if Seqs.Filter(LongLine, lines) == [] {
      forall k | 0 <= k < |lines|
        ensures !LongLine(lines[k])
      {
        Seqs.FilterMembers(LongLine, lines, lines[k]);
      }
    } else {
      Seqs.FilterHead(LongLine, lines);
    }
  }

  /** The query taken from a text is one whole line of it: long, and free of line breaks. */
  lemma {:induction false} ExtractsWholeLine(text: string)
    ensures var q := ExtractQueryFromText(text);
      q.Some? ==> q.value in Split(text, '\n') && LongLine(q.value) && '\n' !in q.value
  {
    var lines := Split(text, '\n');
    TakesFirstLongLine(lines);
  }

  // Search suggestions

  const CommonTerms: seq<string> := [
    "machine learning", "artificial intelligence", "deep learning",
    "quantum computing", "blockchain", "cybersecurity",
    "data science", "computer vision", "natural language processing",
    "robotics", "biotechnology", "renewable energy",
    "climate change", "sustainability", "healthcare"
  ]

  const MaxSuggestions := 5

  /** The term contains the query, ignoring case. */
  predicate Suggests(query: string, term: string) {
    Contains(Lower(term), Lower(query))
  }

  /** `generateSuggestions(query)`: the common terms containing the query, at most five. */
  function GenerateSuggestions(query: string): seq<string> {
    Take(Seqs.Filter(term => Suggests(query, term), CommonTerms), MaxSuggestions)
  }

  /**
   * At most five suggestions, each a common term containing the query,
   * in the order of the list; when fewer than five come back, every
   * matching term is among them.
   */
  lemma SuggestionsMatch(query: string)
    ensures var r := GenerateSuggestions(query);
      && |r| <= MaxSuggestions
      && Seqs.IsSubsequence(r, CommonTerms)
      && (forall k :: 0 <= k < |r| ==> Suggests(query, r[k]))
      && (|r| < MaxSuggestions ==> forall t :: t in CommonTerms && Suggests(query, t) ==> t in r)
  {
    TakeOfFilter(term => Suggests(query, term), CommonTerms, MaxSuggestions);
  }

  /**
   * The first `n` elements satisfying `f`: at most `n`, in order, each
   * satisfying `f`, and all of them when fewer than `n` come back.
   */
  lemma TakeOfFilter<T>(f: T -> bool, xs: seq<T>, n: nat)
    ensures var r := Take(Seqs.Filter(f, xs), n);
      && |r| <= n
      && Seqs.IsSubsequence(r, xs)
      && (forall k :: 0 <= k < |r| ==> f(r[k]))
      && (|r| < n ==> forall t :: t in xs && f(t) ==> t in r)
  {
    var all := Seqs.Filter(f, xs);
    Seqs.FilterIsSubsequence(f, xs);
    PrefixIsSubsequence(Take(all, n), all, xs);
    forall t | t in xs && f(t)
      ensures t in all
    {
      Seqs.FilterMembers(f, xs, t);
    }
  }

  /** A prefix of a subsequence is a subsequence. */
  lemma {:induction false} PrefixIsSubsequence<T>(p: seq<T>, ys: seq<T>, xs: seq<T>)
    requires p <= ys && Seqs.IsSubsequence(ys, xs)
    ensures Seqs.IsSubsequence(p, xs)
    decreases |xs|
  {
    if p != [] {
      assert ys != [] && xs != [];
      if ys[0] == xs[0] && Seqs.IsSubsequence(ys[1..], xs[1..]) {
        PrefixIsSubsequence(p[1..], ys[1..], xs[1..]);
      } else {
        PrefixIsSubsequence(p, ys, xs[1..]);
      }
    }
  }

  /** The empty query is contained in every term, so it suggests the first five. */
  lemma EmptyQuerySuggestsFirstFive()
    ensures GenerateSuggestions("") == CommonTerms[..MaxSuggestions]
  {
    var f := term => Suggests("", term);
    forall k | 0 <= k < |CommonTerms|
      ensures f(CommonTerms[k])
    {
      assert OccursAt(Lower(CommonTerms[k]), Lower(""), 0);
    }
    FilterKeepsAll(f, CommonTerms);
  }

  lemma {:induction false} FilterKeepsAll<T>(f: T -> bool, xs: seq<T>)
    requires forall k :: 0 <= k < |xs| ==> f(xs[k])
    ensures Seqs.Filter(f, xs) == xs
    decreases |xs|
  {
    if xs != [] {
      FilterKeepsAll(f, xs[1..]);
    }
  }

  // Most searched category

  /** A category of `getTopCategory` and the keywords that place a query in it. */
  datatype Category = Category(name: string, keywords: seq<string>)

  const Categories: seq<Category> := [
    Category("AI/ML", ["machine learning", "artificial intelligence", "deep learning"]),
    Category("Computing", ["quantum computing", "blockchain", "cybersecurity"]),
    Category("Science", ["biotechnology", "renewable energy", "climate change"])
  ]

  /** The result when no query falls into any category. */
  const General := "General"

  /** Some keyword of the category occurs in the lower-cased query. */
  predicate InCategory(query: string, c: Category) {
    exists k :: 0 <= k < |c.keywords| && Contains(Lower(query), c.keywords[k])
  }

  /** How many queries of the history fall into the category. */
  function CountIn(history: seq<string>, c: Category): nat
    decreases |history|
  {
    if history == [] then 0
    else CountIn(history[..|history| - 1], c) + (if InCategory(history[|history| - 1], c) then 1 else 0)
  }

  /**
   * The `counts` object while it is built: the count of each category and
   * its keys in insertion order, which is the order `Object.keys` lists.
   */
  datatype Tally = Tally(counts: map<string, nat>, keys: seq<string>)

  /** `counts[name] = (counts[name] || 0) + 1`: a first count also adds the key. */
  function Bump(t: Tally, name: string): Tally {
    if name in t.counts then Tally(t.counts[name := t.counts[name] + 1], t.keys)
    else Tally(t.counts[name := 1], t.keys + [name])
  }

  /** The inner `forEach`: every category among `cats` that the query falls into, in order. */
  function TallyQuery(t: Tally, query: string, cats: seq<Category>): Tally
    decreases |cats|
  {
    if cats == [] then t
    else
      var before := TallyQuery(t, query, cats[..|cats| - 1]);
      var c := cats[|cats| - 1];
      if InCategory(query, c) then Bump(before, c.name) else before
  }

  /** The outer `forEach` over the history. */
  function TallyHistory(history: seq<string>): Tally
    decreases |history|
  {
    if history == [] then Tally(map[], [])
    else TallyQuery(TallyHistory(history[..|history| - 1]), history[|history| - 1], Categories)
  }

  /** `keys.reduce((a, b) => counts[a] > counts[b] ? a : b, 'General')`; an absent count compares false. */
  function Reduce(keys: seq<string>, counts: map<string, nat>): string
    decreases |keys|
  {
    if keys == [] then General
    else
      var a := Reduce(keys[..|keys| - 1], counts);
      var b := keys[|keys| - 1];
      if a in counts && b in counts && counts[a] > counts[b] then a else b
  }

  /** `getTopCategory(history)`. */
  function TopCategory(history: seq<string>): string {
    var t := TallyHistory(history);
    Reduce(t.keys, t.counts)
  }

  /**
   * `getTopCategory(history)` as written: the nested `forEach` loops fill
   * `counts` (with its keys in insertion order), then the reduction walks
   * the keys.
   */
  method GetTopCategory(history: seq<string>) returns (top: string)
    ensures top == TopCategory(history)
  {
    var counts: map<string, nat> := map[];
    var keys: seq<string> := [];
    var i := 0;
    while i < |history|
      invariant 0 <= i <= |history|
      invariant Tally(counts, keys) == TallyHistory(history[..i])
    {
      var query := history[i];
      ghost var start := Tally(counts, keys);
      var j := 0;
      while j < |Categories|
        invariant 0 <= j <= |Categories|
        invariant Tally(counts, keys) == TallyQuery(start, query, Categories[..j])
      {
        var category := Categories[j];
        if InCategory(query, category) {
          if category.name in counts {
            counts := counts[category.name := counts[category.name] + 1];
          } else {
            counts := counts[category.name := 1];
            keys := keys + [category.name];
          }
        }
        assert Categories[..j + 1][..j] == Categories[..j];
        j := j + 1;
      }
      assert Categories[..j] == Categories;
      assert history[..i + 1][..i] == history[..i];
      i := i + 1;
    }
    assert history[..i] == history;
    top := General;
    var k := 0;
    while k < |keys|
      invariant 0 <= k <= |keys|
      invariant top == Reduce(keys[..k], counts)
    {
      if top in counts && keys[k] in counts && counts[top] > counts[keys[k]] {
      } else {
        top := keys[k];
      }
      assert keys[..k + 1][..k] == keys[..k];
      k := k + 1;
    }
    assert keys[..k] == keys;
  }

  /** The keys are distinct and are exactly the counted names, each counted at least once. */
  ghost predicate WellFormed(t: Tally) {
    && (forall i, j :: 0 <= i < j < |t.keys| ==> t.keys[i] != t.keys[j])
    && (forall name :: name in t.counts <==> name in t.keys)
    && (forall name :: name in t.counts ==> t.counts[name] > 0)
  }

  /** The count of a name, 0 when it has none. */
  function CountOf(t: Tally, name: string): nat {
    if name in t.counts then t.counts[name] else 0
  }

  /** The names of the categories, in order. */
  const CategoryNames := ["AI/ML", "Computing", "Science"]

  function Names(cats: seq<Category>): (names: seq<string>)
    ensures |names| == |cats|
    decreases |cats|
  {
    if cats == [] then [] else Names(cats[..|cats| - 1]) + [cats[|cats| - 1].name]
  }

  /** How many of `cats` named `name` the query falls into. */
  function Hits(query: string, cats: seq<Category>, name: string): nat
    decreases |cats|
  {
    if cats == [] then 0
    else Hits(query, cats[..|cats| - 1], name)
         + (if cats[|cats| - 1].name == name && InCategory(query, cats[|cats| - 1]) then 1 else 0)
  }

  /** A bump adds one to its own name only, and appends the name as a key on its first count. */
  lemma BumpCounts(t: Tally, name: string)
    requires WellFormed(t)
    ensures var t' := Bump(t, name);
      && WellFormed(t')
      && t.keys <= t'.keys
      && t'.counts.Keys == t.counts.Keys + {name}
      && forall n :: CountOf(t', n) == CountOf(t, n) + (if n == name then 1 else 0)
  {
    if name !in t.counts {
      var keys := t.keys + [name];
      forall i, j | 0 <= i < j < |keys|
        ensures keys[i] != keys[j]
      {
        if j == |t.keys| {
          assert keys[i] == t.keys[i];
        }
      }
    }
  }

  /**
   * Tallying one query adds to each name the number of categories of that
   * name it falls into; keys stay distinct, every existing key keeps its
   * place, and every new key names one of the categories.
   */
  lemma {:induction false} TallyQueryCounts(t: Tally, query: string, cats: seq<Category>)
    requires WellFormed(t)
    ensures var t' := TallyQuery(t, query, cats);
      && WellFormed(t')
      && t.keys <= t'.keys
      && (forall name :: name in t'.counts ==> name in t.counts || name in Names(cats))
      && forall name :: CountOf(t', name) == CountOf(t, name) + Hits(query, cats, name)
    decreases |cats|
  {
    if cats != [] {
      var init := cats[..|cats| - 1];
      TallyQueryCounts(t, query, init);
      var before := TallyQuery(t, query, init);
      var c := cats[|cats| - 1];
      if InCategory(query, c) {
        BumpCounts(before, c.name);
      }
    }
  }

  /** Each category's hits for a query are 1 when the query falls into it and 0 otherwise. */
  lemma CategoryHits(query: string)
    ensures Names(Categories) == CategoryNames
    ensures forall c :: c in Categories ==> Hits(query, Categories, c.name) == if InCategory(query, c) then 1 else 0
  {
    var cs := Categories;
    assert cs[..3] == cs && cs[..3][..2] == cs[..2] && cs[..2][..1] == cs[..1] && cs[..1][..0] == [];
    assert Names(cs[..1]) == [cs[0].name];
    assert Names(cs[..2]) == [cs[0].name, cs[1].name];
    assert forall a, b :: 0 <= a < b < |cs| ==> cs[a].name != cs[b].name;
    forall c | c in cs
      ensures Hits(query, cs, c.name) == if InCategory(query, c) then 1 else 0
    {
      var i :| 0 <= i < |cs| && cs[i] == c;
      HitsOfDistinctNames(query, cs, i);
    }
  }

  /** With distinct names, the hits of a category's own name come from that category alone. */
  lemma {:induction false} HitsOfDistinctNames(query: string, cats: seq<Category>, i: int)
    requires 0 <= i < |cats|
    requires forall a, b :: 0 <= a < b < |cats| ==> cats[a].name != cats[b].name
    ensures Hits(query, cats, cats[i].name) == if InCategory(query, cats[i]) then 1 else 0
    decreases |cats|
  {
    var init := cats[..|cats| - 1];
    if i == |cats| - 1 {
      HitsOfAbsentName(query, init, cats[i].name);
    } else {
      assert init[i] == cats[i];
      HitsOfDistinctNames(query, init, i);
    }
  }

  /** A name no category has gets no hits. */
  lemma {:induction false} HitsOfAbsentName(query: string, cats: seq<Category>, name: string)
    requires forall k :: 0 <= k < |cats| ==> cats[k].name != name
    ensures Hits(query, cats, name) == 0
    decreases |cats|
  {
    if cats != [] {
      HitsOfAbsentName(query, cats[..|cats| - 1], name);
    }
  }

  /** The category a counted name stands for. */
  lemma CategoryOf(name: string) returns (c: Category)
    requires name in CategoryNames
    ensures c in Categories && c.name == name && name != General
  {
    if name == CategoryNames[0] {
      c := Categories[0];
    } else if name == CategoryNames[1] {
      c := Categories[1];
    } else {
      c := Categories[2];
    }
  }

  /** One more query adds 1 to the count of each category it falls into. */
  lemma CountInAppend(history: seq<string>, query: string, c: Category)
    ensures CountIn(history + [query], c) == CountIn(history, c) + if InCategory(query, c) then 1 else 0
  {
    assert (history + [query])[..|history|] == history;
  }

  /** A category has count 0 exactly when no query falls into it. */
  lemma {:induction false} CountInZero(history: seq<string>, c: Category)
    ensures CountIn(history, c) == 0 <==> forall q :: q in history ==> !InCategory(q, c)
    decreases |history|
  {
    if history != [] {
      var init := history[..|history| - 1];
      CountInZero(init, c);
      assert history == init + [history[|history| - 1]];
    }
  }

  /**
   * After the whole history each category's count is the number of
   * queries that fall into it, and the keys are distinct category names.
   */
  lemma {:induction false} TallyHistoryCounts(history: seq<string>)
    ensures var t := TallyHistory(history);
      && WellFormed(t)
      && (forall name :: name in t.counts ==> name in CategoryNames)
      && forall c :: c in Categories ==> CountOf(t, c.name) == CountIn(history, c)
    decreases |history|
  {
    if history != [] {
      var init := history[..|history| - 1];
      var query := history[|history| - 1];
      TallyHistoryCounts(init);
      TallyQueryCounts(TallyHistory(init), query, Categories);
      CategoryHits(query);
      assert history == init + [query];
      forall c | c in Categories
        ensures CountOf(TallyHistory(history), c.name) == CountIn(history, c)
      {
        CountInAppend(init, query, c);
      }
    }
  }

  /**
   * The reduction over distinct counted keys, when 'General' has no count,
   * returns the key at some index `i` whose count no key exceeds and every
   * key after it falls short of: the largest count, ties going to the key
   * counted first latest.
   */
  lemma {:induction false} ReduceFindsLatestMaximum(keys: seq<string>, counts: map<string, nat>)
    requires keys != [] && General !in counts
    requires forall k :: 0 <= k < |keys| ==> keys[k] in counts
    ensures var top := Reduce(keys, counts);
      exists i :: 0 <= i < |keys| && keys[i] == top
        && (forall k :: 0 <= k < |keys| ==> counts[keys[k]] <= counts[top])
        && (forall k :: i < k < |keys| ==> counts[keys[k]] < counts[top])
    decreases |keys|
  {
    var init := keys[..|keys| - 1];
    var b := keys[|keys| - 1];
    var last := |keys| - 1;
    var top := Reduce(keys, counts);
    if init == [] {
      assert Reduce(init, counts) == General;
      assert top == b && |keys| == 1;
      assert keys[last] == top;
    } else {
      ReduceFindsLatestMaximum(init, counts);
      var a := Reduce(init, counts);
      var i :| 0 <= i < |init| && init[i] == a
        && (forall k :: 0 <= k < |init| ==> counts[init[k]] <= counts[a])
        && (forall k :: i < k < |init| ==> counts[init[k]] < counts[a]);
      assert forall k :: 0 <= k < |init| ==> keys[k] == init[k];
      if counts[a] > counts[b] {
        assert top == a;
        assert keys[i] == top
          && (forall k :: 0 <= k < |keys| ==> counts[keys[k]] <= counts[top])
          && (forall k :: i < k < |keys| ==> counts[keys[k]] < counts[top]);
      } else {
        assert top == b;
        assert keys[last] == top && forall k :: 0 <= k < |keys| ==> counts[keys[k]] <= counts[top];
      }
    }
  }

  /** 'General' exactly when no query falls into any category. */
  lemma TopCategoryGeneral(history: seq<string>)
    ensures TopCategory(history) == General <==>
      forall c, q :: c in Categories && q in history ==> !InCategory(q, c)
  {
    var t := TallyHistory(history);
    TallyHistoryCounts(history);
    if t.keys == [] {
      forall c, q | c in Categories && q in history
        ensures !InCategory(q, c)
      {
        CountInZero(history, c);
      }
    } else {
      assert General !in t.counts;
      ReduceFindsLatestMaximum(t.keys, t.counts);
      var c := CategoryOf(TopCategory(history));
      CountInZero(history, c);
    }
  }

  /**
   * Otherwise the result names a category whose query count no other
   * category exceeds, and every category whose first count came after its
   * own (a later key of `counts`) has a smaller count.
   */
  lemma TopCategoryMostSearched(history: seq<string>)
    requires TopCategory(history) != General
    ensures exists top ::
      && top in Categories && top.name == TopCategory(history)
      && (forall c :: c in Categories ==> CountIn(history, c) <= CountIn(history, top))
      && (var keys := TallyHistory(history).keys;
          exists i :: 0 <= i < |keys| && keys[i] == top.name
            && forall c :: c in Categories && c.name in keys[i + 1..] ==> CountIn(history, c) < CountIn(history, top))
  {
    var top, i := MostSearchedWitness(history);
  }

  lemma MostSearchedWitness(history: seq<string>) returns (top: Category, i: nat)
    requires TopCategory(history) != General
    ensures top in Categories && top.name == TopCategory(history)
    ensures forall c :: c in Categories ==> CountIn(history, c) <= CountIn(history, top)
    ensures var keys := TallyHistory(history).keys;
      && i < |keys| && keys[i] == top.name
      && forall c :: c in Categories && c.name in keys[i + 1..] ==> CountIn(history, c) < CountIn(history, top)
  {
    var t := TallyHistory(history);
    TallyHistoryCounts(history);
    assert General !in t.counts && t.keys != [];
    i := TallyMaximum(t);
    top := CategoryOf(t.keys[i]);
  }

  /**
   * The reduction of a well-formed tally picks the key at index `i` whose
   * count no name exceeds and every later key falls short of.
   */
  lemma TallyMaximum(t: Tally) returns (i: nat)
    requires WellFormed(t) && t.keys != [] && General !in t.counts
    ensures i < |t.keys| && t.keys[i] == Reduce(t.keys, t.counts)
    ensures forall name :: CountOf(t, name) <= CountOf(t, t.keys[i])
    ensures forall name :: name in t.keys[i + 1..] ==> CountOf(t, name) < CountOf(t, t.keys[i])
  {
    assert forall k :: 0 <= k < |t.keys| ==> t.keys[k] in t.counts;
    ReduceFindsLatestMaximum(t.keys, t.counts);
    var top := Reduce(t.keys, t.counts);
    i :| 0 <= i < |t.keys| && t.keys[i] == top
      && (forall k :: 0 <= k < |t.keys| ==> t.counts[t.keys[k]] <= t.counts[top])
      && (forall k :: i < k < |t.keys| ==> t.counts[t.keys[k]] < t.counts[top]);
    TopCountBounds(t, i);
  }

  /** Index facts about the counts of the keys, read as facts about the count of every name. */
  lemma TopCountBounds(t: Tally, i: nat)
    requires i < |t.keys|
    requires forall name :: name in t.counts <==> name in t.keys
    requires forall k :: 0 <= k < |t.keys| ==> t.counts[t.keys[k]] <= t.counts[t.keys[i]]
    requires forall k :: i < k < |t.keys| ==> t.counts[t.keys[k]] < t.counts[t.keys[i]]
    ensures forall name :: CountOf(t, name) <= CountOf(t, t.keys[i])
    ensures forall name :: name in t.keys[i + 1..] ==> CountOf(t, name) < CountOf(t, t.keys[i])
  {
    var top := t.keys[i];
    assert top in t.counts;
    forall name
      ensures CountOf(t, name) <= CountOf(t, top)
    {
      if name in t.counts {
        var k :| 0 <= k < |t.keys| && t.keys[k] == name;
        assert t.counts[t.keys[k]] <= t.counts[top];
      }
    }
    forall name | name in t.keys[i + 1..]
      ensures CountOf(t, name) < CountOf(t, top)
    {
      var k :| 0 <= k < |t.keys[i + 1..]| && t.keys[i + 1..][k] == name;
      assert t.keys[i + 1 + k] == name;
    }
  }

  // Recent searches

  const MaxRecentSearches := 50

  /** The stored list of recent searches that `cacheRecentSearches` trims. */
  class RecentSearches<T> {
    var entries: seq<T>

    constructor (entries: seq<T>)
      ensures this.entries == entries
    {
      this.entries := entries;
    }

    /** `cacheRecentSearches()`: above 50 entries, the oldest are spliced off and the list is stored again. */
    method CacheRecentSearches() returns (stored: bool)
      modifies this
      ensures stored <==> |old(entries)| > MaxRecentSearches
      ensures entries == Seqs.LastN(old(entries), MaxRecentSearches)
    {
      stored := false;
      if |entries| > MaxRecentSearches {
        entries := entries[|entries| - MaxRecentSearches..];
        stored := true;
      }
    }
  }

  /** The kept entries are the newest, in their order: the list is the removed oldest followed by them. */
  lemma RecentSearchesKeepNewest<T>(entries: seq<T>)
    ensures var kept := Seqs.LastN(entries, MaxRecentSearches);
      && |kept| <= MaxRecentSearches
      && (|entries| <= MaxRecentSearches ==> kept == entries)
      && entries == entries[..|entries| - |kept|] + kept
      && Seqs.LastN(kept, MaxRecentSearches) == kept
  {
    Seqs.LastNIdempotent(entries, MaxRecentSearches);
  }
}
