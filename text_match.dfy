/**
 * The regular-expression searches of the XML parsers, as functions on text.
 * Every pattern those parsers use has one of two shapes:
 *
 *  - a capture `open([^s]+)close`, or `open[^>]*>([^s]+)close` when the
 *    opening tag may carry attributes, where `close` begins with the
 *    excluded character `s`;
 *  - a span `open[\s\S]*?A[\s\S]*?B ... [\s\S]*?close`, where A, B, ... are
 *    captures: `<entry>[\s\S]*?</entry>` has none, the PubMed date and
 *    author patterns have one and two.
 *
 * For these shapes the backtracking search of a regular-expression engine
 * has a direct description. A capture's text is the longest run of
 * characters other than `s`: a shorter run cannot be followed by `close`,
 * whose first character is `s`. Each lazy gap ends at the earliest place
 * where the rest of the pattern can follow, and a later choice never helps.
 * `match` without the `g` flag finds the leftmost match; with it, every
 * match in turn, each search resuming where the previous match ended.
 */
module TextMatch {
  import opened Wrappers
  import opened Strings

  /** The first index at or after `from` where `sub` occurs. */
  function FindFrom(s: string, sub: string, from: nat): (r: Option<nat>)
    ensures r.Some? ==> from <= r.value && OccursAt(s, sub, r.value)
    ensures r.Some? ==> forall i :: from <= i < r.value ==> !OccursAt(s, sub, i)
    ensures r.None? ==> forall i :: from <= i ==> !OccursAt(s, sub, i)
    decreases |s| - from
  {
    if from + |sub| > |s| then None
    else if OccursAt(s, sub, from) then Some(from)
    else FindFrom(s, sub, from + 1)
  }

  /** The end of the run of characters other than `stop` that starts at `from`. */
  function RunEnd(s: string, from: nat, stop: char): (k: nat)
    requires from <= |s|
    ensures from <= k <= |s|
    ensures forall j :: from <= j < k ==> s[j] != stop
    ensures k < |s| ==> s[k] == stop
    decreases |s| - from
  {
    if from == |s| || s[from] == stop then from else RunEnd(s, from + 1, stop)
  }

  /** A capture pattern: `open([^stop]+)close`, or `open[^>]*>([^stop]+)close` when `attrs` holds. */
  datatype Tag = Tag(open: string, attrs: bool, stop: char, close: string)

  /**
   * A whole pattern: a capture, or a span made of `open` (followed by
   * `[^>]*>` when `attrs` holds), the captures `inner` in order, each after a
   * lazy gap, and a lazy gap before `close`.
   */
  datatype Pattern =
    | Capture(tag: Tag)
    | Span(open: string, attrs: bool, inner: seq<Tag>, close: string)

  /** A match: where it starts, the matched text, the captured groups and the index just past it. */
  datatype Match = Match(start: nat, text: string, groups: seq<string>, end: nat)

  /** Where the text after the opening part of a pattern begins, when that part matches at `i`. */
  function OpenEnd(s: string, open: string, attrs: bool, i: nat): (r: Option<nat>)
    ensures r.Some? ==> i + |open| <= r.value <= |s|
  {
    if !OccursAt(s, open, i) then None
    else if !attrs then Some(i + |open|)
    else
      var g := RunEnd(s, i + |open|, '>');
      if g < |s| then Some(g + 1) else None
  }

  /** The rest of a capture match whose opening part spans `i` to `c`: the group and the closing text. */
  function CaptureFrom(s: string, t: Tag, i: nat, c: nat): (r: Option<Match>)
    requires i <= c <= |s|
    ensures r.Some? ==> r.value.start == i < r.value.end <= |s| && r.value.text == s[i..r.value.end]
    ensures r.Some? ==> |r.value.groups| == 1 && r.value.groups[0] != "" && t.stop !in r.value.groups[0]
  {
    var e := RunEnd(s, c, t.stop);
    if e > c && OccursAt(s, t.close, e) then
      var group := s[c..e];
      assert forall k :: 0 <= k < |group| ==> group[k] == s[c + k];
      Some(Match(i, s[i..e + |t.close|], [group], e + |t.close|))
    else None
  }

  /** The match of a capture pattern starting exactly at `i`: one non-empty group free of the stop character. */
  function TagAt(s: string, t: Tag, i: nat): (r: Option<Match>)
    ensures r.Some? ==> r.value.start == i < r.value.end <= |s| && r.value.text == s[i..r.value.end]
    ensures r.Some? ==> |r.value.groups| == 1 && r.value.groups[0] != "" && t.stop !in r.value.groups[0]
  {
    match OpenEnd(s, t.open, t.attrs, i)
    case None => None
    case Some(c) => CaptureFrom(s, t, i, c)
  }

  /** A capture pattern matches at no index from `lo` up to but excluding `hi`. */
  predicate NoTagIn(s: string, t: Tag, lo: nat, hi: nat)
    decreases hi - lo
  {
    lo >= hi || (TagAt(s, t, lo).None? && NoTagIn(s, t, lo + 1, hi))
  }

  /** The leftmost match of a capture pattern at or after `from`. */
  function FirstTagFrom(s: string, t: Tag, from: nat): (r: Option<Match>)
    ensures r.Some? ==> from <= r.value.start && TagAt(s, t, r.value.start) == r
    ensures r.Some? ==> NoTagIn(s, t, from, r.value.start)
    ensures r.None? ==> NoTagIn(s, t, from, |s| + 1)
    decreases |s| + 1 - from
  {
    if from > |s| then None
    else
      var m := TagAt(s, t, from);
      if m.Some? then m else FirstTagFrom(s, t, from + 1)
  }

  /** A capture pattern without attributes is well formed when its closing text starts with the excluded character. */
  predicate PlainTag(t: Tag) {
    !t.attrs && |t.close| > 0 && t.close[0] == t.stop
  }

  /** The literal text `open + x + close` occurs at `i`, with `x` non-empty and free of the excluded character. */
  predicate Occurrence(s: string, t: Tag, x: string, i: int) {
    x != "" && t.stop !in x && OccursAt(s, t.open + x + t.close, i)
  }

  /** The run of non-stop characters after `from` ends at the first stop character. */
  lemma RunEndAt(s: string, from: nat, stop: char, p: nat)
    requires from <= p < |s| && s[p] == stop
    requires forall j :: from <= j < p ==> s[j] != stop
    ensures RunEnd(s, from, stop) == p
  {
  }

  /** An occurrence of `a + x + b` at `i` is `a` at `i`, `x` right after it and `b` after that. */
  lemma OccurrenceParts(s: string, a: string, x: string, b: string, i: nat)
    requires OccursAt(s, a + x + b, i)
    ensures OccursAt(s, a, i) && s[i + |a|..i + |a| + |x|] == x && OccursAt(s, b, i + |a| + |x|)
  {
    var w := a + x + b;
    var c := i + |a|;
    var e := c + |x|;
    assert s[i..i + |w|] == w;
    assert s[i..c] == s[i..i + |w|][..|a|] == w[..|a|] == a;
    assert s[c..e] == s[i..i + |w|][|a|..|a| + |x|] == w[|a|..|a| + |x|] == x;
    assert s[e..e + |b|] == s[i..i + |w|][|a| + |x|..] == w[|a| + |x|..] == b;
  }

  /** A literal occurrence of a plain capture pattern is a match there, capturing its text. */
  lemma OccurrenceMatches(s: string, t: Tag, x: string, i: nat)
    requires PlainTag(t) && Occurrence(s, t, x, i)
    ensures TagAt(s, t, i).Some? && TagAt(s, t, i).value.groups == [x]
  {
    var c := i + |t.open|;
    var e := c + |x|;
    OccurrenceParts(s, t.open, x, t.close, i);
    assert s[e] == s[e..e + |t.close|][0] == t.stop;
    forall j | c <= j < e ensures s[j] != t.stop {
      assert s[j] == s[c..e][j - c] == x[j - c];
    }
    RunEndAt(s, c, t.stop, e);
    assert OpenEnd(s, t.open, t.attrs, i) == Some(c);
    assert CaptureFrom(s, t, i, c).value.groups == [s[c..e]];
  }

  /** Conversely, a match of a plain capture pattern is a literal occurrence of its captured text. */
  lemma MatchIsOccurrence(s: string, t: Tag, i: nat)
    requires PlainTag(t) && TagAt(s, t, i).Some?
    ensures Occurrence(s, t, TagAt(s, t, i).value.groups[0], i)
    ensures TagAt(s, t, i).value.text == t.open + TagAt(s, t, i).value.groups[0] + t.close
  {
    var x := TagAt(s, t, i).value.groups[0];
    var c := i + |t.open|;
    var e := RunEnd(s, c, t.stop);
    assert x == s[c..e];
    assert s[i..e + |t.close|] == s[i..c] + s[c..e] + s[e..e + |t.close|];
  }

  /** A plain capture pattern matches somewhere exactly when its literal text occurs somewhere. */
  lemma FindsIffOccurs(s: string, t: Tag)
    requires PlainTag(t)
    ensures First(s, Capture(t), 0).Some? <==> exists x, i :: Occurrence(s, t, x, i)
  {
    var r := First(s, Capture(t), 0);
    if r.Some? {
      MatchIsOccurrence(s, t, r.value.start);
    }
    if exists x, i :: Occurrence(s, t, x, i) {
      var x, i :| Occurrence(s, t, x, i);
      OccurrenceMatches(s, t, x, i);
      FirstIsLeftmost(s, Capture(t), 0);
      assert MatchAt(s, Capture(t), i).Some?;
    }
  }

  /** The groups of a sequence of captures, each found at the earliest place from where the previous one ended. */
  datatype Chain = Chain(groups: seq<string>, end: nat)

  function ChainFrom(s: string, tags: seq<Tag>, pos: nat): (r: Option<Chain>)
    ensures r.Some? ==> pos <= r.value.end && |r.value.groups| == |tags|
    decreases |tags|
  {
    if tags == [] then Some(Chain([], pos))
    else
      match FirstTagFrom(s, tags[0], pos)
      case None => None
      case Some(m) =>
        match ChainFrom(s, tags[1..], m.end)
        case None => None
        case Some(rest) => Some(Chain(m.groups + rest.groups, rest.end))
  }

  /** The match of a span pattern starting exactly at `i`. */
  function SpanAt(s: string, open: string, attrs: bool, inner: seq<Tag>, close: string, i: nat): (r: Option<Match>)
    ensures r.Some? ==> r.value.start == i <= r.value.end <= |s| && r.value.text == s[i..r.value.end]
    ensures r.Some? ==> |r.value.groups| == |inner|
  {
    var c := OpenEnd(s, open, attrs, i);
    if c.None? then None
    else
      var chain := ChainFrom(s, inner, c.value);
      if chain.None? then None
      else
        var j := FindFrom(s, close, chain.value.end);
        if j.None? then None
        else Some(Match(i, s[i..j.value + |close|], chain.value.groups, j.value + |close|))
  }

  /** The match of a pattern starting exactly at `i`. */
  function MatchAt(s: string, p: Pattern, i: nat): (r: Option<Match>)
    ensures r.Some? ==> r.value.start == i <= r.value.end <= |s| && r.value.text == s[i..r.value.end]
    ensures r.Some? && p.Capture? ==> |r.value.groups| == 1
    ensures r.Some? && p.Span? ==> |r.value.groups| == |p.inner|
  {
    match p
    case Capture(t) => TagAt(s, t, i)
    case Span(open, attrs, inner, close) => SpanAt(s, open, attrs, inner, close, i)
  }

  /** The number of groups a match of `p` captures. */
  function GroupCount(p: Pattern): nat {
    if p.Capture? then 1 else |p.inner|
  }

  /** A pattern matches at no index from `lo` up to but excluding `hi`. */
  predicate NoMatchIn(s: string, p: Pattern, lo: nat, hi: nat)
    decreases hi - lo
  {
    lo >= hi || (MatchAt(s, p, lo).None? && NoMatchIn(s, p, lo + 1, hi))
  }

  /** Where no match was found, none starts at any index of the range. */
  lemma {:induction false} NoMatchInAt(s: string, p: Pattern, lo: nat, hi: nat, i: nat)
    requires NoMatchIn(s, p, lo, hi) && lo <= i < hi
    ensures MatchAt(s, p, i).None?
    decreases hi - lo
  {
    if lo < i {
      NoMatchInAt(s, p, lo + 1, hi, i);
    }
  }

  /** Conversely, a range where no index starts a match is one where none is found. */
  lemma {:induction false} NoneAtIsNoMatchIn(s: string, p: Pattern, lo: nat, hi: nat)
    requires forall i :: lo <= i < hi ==> MatchAt(s, p, i).None?
    ensures NoMatchIn(s, p, lo, hi)
    decreases hi - lo
  {
    if lo < hi {
      NoneAtIsNoMatchIn(s, p, lo + 1, hi);
    }
  }

  /** `s.match(p)` from `from` on, without the `g` flag: the leftmost match. */
  function First(s: string, p: Pattern, from: nat): (r: Option<Match>)
    ensures r.Some? ==> from <= r.value.start && MatchAt(s, p, r.value.start) == r
    ensures r.Some? ==> NoMatchIn(s, p, from, r.value.start)
    ensures r.None? ==> NoMatchIn(s, p, from, |s| + 1)
    decreases |s| + 1 - from
  {
    if from > |s| then None
    else
      var m := MatchAt(s, p, from);
      if m.Some? then m else First(s, p, from + 1)
  }

  /** The match found is the leftmost one: no match starts before it, and none at all when nothing is found. */
  lemma FirstIsLeftmost(s: string, p: Pattern, from: nat)
    ensures First(s, p, from).Some? ==> forall i :: from <= i < First(s, p, from).value.start ==> MatchAt(s, p, i).None?
    ensures First(s, p, from).None? ==> forall i :: from <= i <= |s| ==> MatchAt(s, p, i).None?
  {
    var r := First(s, p, from);
    var hi := if r.Some? then r.value.start else |s| + 1;
    forall i | from <= i < hi
      ensures MatchAt(s, p, i).None?
    {
      NoMatchInAt(s, p, from, hi, i);
    }
  }

  /** `s.match(re)?.[1]` for a capture pattern: the group of its leftmost match. */
  function Group(s: string, t: Tag): (r: Option<string>)
    ensures r.Some? ==> r.value != "" && t.stop !in r.value
  {
    match First(s, Capture(t), 0)
    case None => None
    case Some(m) => Some(m.groups[0])
  }

  /** The leftmost match from `from` is the one at `i` when nothing matches between `from` and `i`. */
  lemma {:induction false} FirstFromAt(s: string, p: Pattern, from: nat, i: nat)
    requires from <= i && MatchAt(s, p, i).Some?
    requires forall j :: from <= j < i ==> MatchAt(s, p, j).None?
    ensures First(s, p, from) == MatchAt(s, p, i)
    decreases i - from
  {
    if from < i {
      assert MatchAt(s, p, from).None?;
      assert First(s, p, from) == First(s, p, from + 1);
      FirstFromAt(s, p, from + 1, i);
    }
  }

  /** For a capture pattern the leftmost match is the one a span looks for. */
  lemma {:induction false} FirstOfCapture(s: string, t: Tag, from: nat)
    ensures First(s, Capture(t), from) == FirstTagFrom(s, t, from)
    decreases |s| + 1 - from
  {
    if from <= |s| {
      assert MatchAt(s, Capture(t), from) == TagAt(s, t, from);
      if TagAt(s, t, from).None? {
        FirstOfCapture(s, t, from + 1);
      }
    }
  }

  /**
   * `s.match(p)` with the `g` flag, from `from` on: the leftmost match, then
   * the matches from its end on (one character further for an empty match).
   */
  function AllFrom(s: string, p: Pattern, from: nat): (r: seq<Match>)
    ensures forall k :: 0 <= k < |r| ==> |r[k].groups| == GroupCount(p)
    decreases |s| + 1 - from
  {
    match First(s, p, from)
    case None => []
    case Some(m) => [m] + AllFrom(s, p, if m.end > from then m.end else from + 1)
  }

  /** `s.match(p)` with the `g` flag. */
  function All(s: string, p: Pattern): (r: seq<Match>)
    ensures forall k :: 0 <= k < |r| ==> |r[k].groups| == GroupCount(p)
  {
    AllFrom(s, p, 0)
  }

  /** Every match found is a match of the pattern at its start, at or after `from`. */
  lemma {:induction false} AllFromAreMatches(s: string, p: Pattern, from: nat)
    ensures forall k :: 0 <= k < |AllFrom(s, p, from)| ==>
      from <= AllFrom(s, p, from)[k].start && MatchAt(s, p, AllFrom(s, p, from)[k].start) == Some(AllFrom(s, p, from)[k])
    decreases |s| + 1 - from
  {
    var f := First(s, p, from);
    if f.Some? {
      var m := f.value;
      var next := if m.end > from then m.end else from + 1;
      AllFromAreMatches(s, p, next);
      var rest := AllFrom(s, p, next);
      assert AllFrom(s, p, from) == [m] + rest;
    }
  }

  /** The matches found follow one another without overlapping. */
  lemma {:induction false} AllFromInOrder(s: string, p: Pattern, from: nat)
    ensures forall k :: 0 <= k < |AllFrom(s, p, from)| - 1 ==> AllFrom(s, p, from)[k].end <= AllFrom(s, p, from)[k + 1].start
    decreases |s| + 1 - from
  {
    var f := First(s, p, from);
    if f.Some? {
      var m := f.value;
      var next := if m.end > from then m.end else from + 1;
      AllFromInOrder(s, p, next);
      AllFromAreMatches(s, p, next);
      var rest := AllFrom(s, p, next);
      assert AllFrom(s, p, from) == [m] + rest;
    }
  }

  /** No match is missed before the first one found, and none at all when nothing is found. */
  lemma AllFromMissesNothing(s: string, p: Pattern, from: nat)
    ensures AllFrom(s, p, from) != [] ==> forall i :: from <= i < AllFrom(s, p, from)[0].start ==> MatchAt(s, p, i).None?
    ensures AllFrom(s, p, from) == [] ==> forall i :: from <= i <= |s| ==> MatchAt(s, p, i).None?
  {
    FirstIsLeftmost(s, p, from);
  }

  /** All three facts about the matches found. */
  lemma AllFromMatches(s: string, p: Pattern, from: nat)
    ensures var r := AllFrom(s, p, from);
      && (forall k :: 0 <= k < |r| ==> from <= r[k].start && MatchAt(s, p, r[k].start) == Some(r[k]))
      && (forall k :: 0 <= k < |r| - 1 ==> r[k].end <= r[k + 1].start)
      && (r != [] ==> forall i :: from <= i < r[0].start ==> MatchAt(s, p, i).None?)
      && (r == [] ==> forall i :: from <= i <= |s| ==> MatchAt(s, p, i).None?)
  {
    AllFromAreMatches(s, p, from);
    AllFromInOrder(s, p, from);
    AllFromMissesNothing(s, p, from);
  }
}
