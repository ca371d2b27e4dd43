/**
 * Input checks and sanitisers of src/utils/validation.js. A thrown `Error` is a
 * `Failure` carrying its message. A value that is not a string (or not an
 * array, or missing) is `None`.
 */
module Validation {
  import opened Wrappers
  import opened Strings
  import Seqs
  import PaperProcessor

  const MaxQueryLength := 500
  const MaxSessionIdLength := 100

  /** `validateQuery`: the trimmed query, or the reason it is refused. */
  function ValidateQuery(query: Option<string>): (r: Result<string, string>)
    ensures r.Success? ==> 1 <= Utf16Length(r.value) <= MaxQueryLength && IsTrimmed(r.value)
  {
    if query.None? || query.value == "" then Failure("Query must be a non-empty string")
    else
      var trimmed := Trim(query.value);
      if |trimmed| == 0 then Failure("Query cannot be empty")
      else if Utf16Length(trimmed) > MaxQueryLength then Failure("Query too long (max 500 characters)")
      else Success(trimmed)
  }

  /** A validated query validates to itself. */
  lemma ValidateQueryFixedPoint(query: Option<string>)
    requires ValidateQuery(query).Success?
    ensures ValidateQuery(Some(ValidateQuery(query).value)) == ValidateQuery(query)
  {
    var v := ValidateQuery(query).value;
    assert v == Trim(query.value);
    TrimOfTrimmed(v);
    assert v != "" && Trim(v) == v;
  }

  /**
   * A query is refused exactly when it is missing, blank, or longer than 500
   * UTF-16 code units once trimmed; otherwise validation returns it trimmed.
   */
  lemma ValidateQueryOutcome(query: Option<string>)
    ensures ValidateQuery(query).Failure? <==> query.None? || |Trim(query.value)| == 0 || Utf16Length(Trim(query.value)) > MaxQueryLength
    ensures ValidateQuery(query).Success? ==> ValidateQuery(query).value == Trim(query.value)
  {
  }

  /** The first two validation cases of the test suite. */
  lemma ValidateQueryExamples()
    ensures ValidateQuery(Some("machine learning")) == Success("machine learning")
    ensures ValidateQuery(Some("")) == Failure("Query must be a non-empty string")
  {
    var q := "machine learning";
    assert q[0] == 'm' && q[|q| - 1] == 'g';
    TrimOfTrimmed(q);
  }

  /** The third case, for every query: text over 500 code units with no surrounding space is refused as too long. */
  lemma ValidateQueryTooLong(q: string)
    requires Utf16Length(q) > MaxQueryLength && q != [] && !IsSpace(q[0]) && !IsSpace(q[|q| - 1])
    ensures ValidateQuery(Some(q)) == Failure("Query too long (max 500 characters)")
  {
    TrimOfTrimmed(q);
  }

  /** Length is JavaScript's: 300 astral characters are 600 code units, so the query is refused. */
  lemma ValidateQueryCountsCodeUnits(q: string)
    requires |q| == 300 && forall k :: 0 <= k < |q| ==> q[k] == '\U{1F600}'
    ensures ValidateQuery(Some(q)) == Failure("Query too long (max 500 characters)")
  {
    Utf16LengthOfAstral(q);
    ValidateQueryTooLong(q);
  }

  /** `generateSessionId()`: 'session_', a random part and the clock reading. */
  function GenerateSessionId(randomPart: string, now: nat): (id: string)
    ensures "session_" <= id
    ensures "session_" + randomPart + "_" <= id && |id| > 9 + |randomPart|
    ensures forall k :: 9 + |randomPart| <= k < |id| ==> '0' <= id[k] <= '9'
  {
    "session_" + randomPart + "_" + NatToString(now)
  }

  /**
   * `validateSessionId`: a usable id is returned unchanged, one longer than 100
   * code units is refused, and a missing or empty one is replaced by `generated`.
   */
  function ValidateSessionId(sessionId: Option<string>, generated: string): (r: Result<string, string>)
    ensures sessionId.Some? && 0 < Utf16Length(sessionId.value) <= MaxSessionIdLength ==> r == Success(sessionId.value)
    ensures sessionId.Some? && Utf16Length(sessionId.value) > MaxSessionIdLength ==> r.Failure?
    ensures sessionId.None? || sessionId.value == "" ==> r == Success(generated)
  {
    if sessionId.None? || sessionId.value == "" then Success(generated)
    else if Utf16Length(sessionId.value) > MaxSessionIdLength then Failure("Session ID too long")
    else Success(sessionId.value)
  }

  /** The session cases of the test suite: a valid id is kept, a missing one is replaced by a generated 'session_' id. */
  lemma ValidateSessionIdExamples(randomPart: string, now: nat)
    ensures ValidateSessionId(Some("session_123"), GenerateSessionId(randomPart, now)) == Success("session_123")
    ensures "session_" <= ValidateSessionId(None, GenerateSessionId(randomPart, now)).value
  {
  }

  /** `.replace(/[<>]/g, '')`. */
  function RemoveAngles(s: string): (r: string)
    ensures '<' !in r && '>' !in r
    ensures |r| <= |s|
    decreases |s|
  {
    if s == [] then []
    else (if s[0] == '<' || s[0] == '>' then [] else [s[0]]) + RemoveAngles(s[1..])
  }

  const Protocol := "javascript:"

  /** The next 11 characters spell 'javascript:' in any letter case. */
  predicate StartsWithProtocol(s: string) {
    |s| >= |Protocol| && Lower(s[..|Protocol|]) == Protocol
  }

  /**
   * `.replace(/javascript:/gi, '')`: one left-to-right pass deleting each
   * non-overlapping occurrence; text formed by a deletion is not scanned again.
   */
  function RemoveProtocol(s: string): (r: string)
    ensures |r| <= |s|
    ensures forall c :: c in r ==> c in s
    decreases |s|
  {
    if s == [] then []
    else if StartsWithProtocol(s) then RemoveProtocol(s[|Protocol|..])
    else [s[0]] + RemoveProtocol(s[1..])
  }

  /** `sanitizeInput`: nothing for a non-string, otherwise the text without angle brackets and the protocol, trimmed. */
  function SanitizeInput(input: Option<string>): (r: string)
    ensures '<' !in r && '>' !in r
    ensures IsTrimmed(r)
    ensures input.None? ==> r == ""
  {
    if input.None? then ""
    else
      var t := RemoveProtocol(RemoveAngles(input.value));
      TrimIsInfix(t);
      Trim(t)
  }

  /** Text without the protocol comes through the second pass unchanged. */
  lemma {:induction false} RemoveProtocolOfClean(s: string)
    requires forall i :: 0 <= i <= |s| ==> !StartsWithProtocol(s[i..])
    ensures RemoveProtocol(s) == s
    decreases |s|
  {
    if s != [] {
      assert !StartsWithProtocol(s[0..]) by { assert s[0..] == s; }
      forall i | 0 <= i <= |s[1..]| ensures !StartsWithProtocol(s[1..][i..]) {
        assert s[1..][i..] == s[i + 1..];
      }
      RemoveProtocolOfClean(s[1..]);
    }
  }

  /** The 11 characters at the front of `s` spell the protocol once lowered. */
  lemma ProtocolChars(s: string, k: int)
    requires StartsWithProtocol(s) && 0 <= k < |Protocol|
    ensures LowerChar(s[k]) == Protocol[k]
  {
    assert Lower(s[..|Protocol|])[k] == LowerChar(s[k]);
  }

  /** The lower-case protocol itself starts with the protocol. */
  lemma ProtocolStartsWithProtocol(s: string)
    requires |Protocol| <= |s| && s[..|Protocol|] == Protocol
    ensures StartsWithProtocol(s)
  {
    var p := s[..|Protocol|];
    forall k | 0 <= k < |p| ensures Lower(p)[k] == p[k] {
      assert p[k] == Protocol[k];
    }
  }

  /**
   * The single pass does not reach a fixed point: deleting an inner occurrence
   * can join the surrounding text into a new one.
   */
  lemma SanitizeIsSinglePass(s: string)
    requires s == "javajavascript:script:"
    ensures SanitizeInput(Some(s)) == "javascript:"
  {
    NoAnglesInExample();
    RemoveProtocolExample(s, "script:");
    JavaPrefix(s, "script:");
    ProtocolIsTrimmed();
    TrimOfTrimmed(Protocol);
  }

  lemma NoAnglesInExample()
    ensures RemoveAngles("javajavascript:script:") == "javajavascript:script:"
  {
    var s := "javajavascript:script:";
    forall i | 0 <= i < |s| ensures s[i] != '<' && s[i] != '>' { }
    RemoveAnglesOfClean(s);
  }

  lemma JavaPrefix(s: string, tail: string)
    requires s == "javajavascript:script:" && tail == "script:"
    ensures s[..4] + tail == Protocol
  {
    assert s[..4] == "java";
  }

  lemma ProtocolIsTrimmed()
    ensures IsTrimmed(Protocol)
  {
  }

  /** The pass over 'java' + 'javascript:' + 'script:' keeps 'java', drops the protocol and keeps 'script:'. */
  lemma RemoveProtocolExample(s: string, tail: string)
    requires s == "javajavascript:script:" && tail == "script:"
    ensures RemoveProtocol(s) == s[..4] + tail
  {
    ProtocolAfterJava(s, tail);
    NoProtocolIn(tail);
    RemoveProtocolOfClean(tail);
    NoProtocolInJava(s);
    assert s[4..4] + tail == tail;
    KeepAt(s, 4, 4, tail);
    KeepAt(s, 3, 4, tail);
    KeepAt(s, 2, 4, tail);
    KeepAt(s, 1, 4, tail);
    assert s[0..] == s;
  }

  /** In the example the protocol starts at index 4 and 'script:' follows it. */
  lemma ProtocolAfterJava(s: string, tail: string)
    requires s == "javajavascript:script:" && tail == "script:"
    ensures StartsWithProtocol(s[4..]) && s[4..][|Protocol|..] == tail
  {
    assert s[4..][..|Protocol|] == Protocol;
    ProtocolStartsWithProtocol(s[4..]);
    assert s[4..][|Protocol|..] == tail;
  }

  /** In the example the protocol starts at none of the first four indices. */
  lemma NoProtocolInJava(s: string)
    requires s == "javajavascript:script:"
    ensures forall i :: 0 <= i < 4 ==> !StartsWithProtocol(s[i..])
  {
    forall i | 0 <= i < 4 ensures !StartsWithProtocol(s[i..]) {
      if StartsWithProtocol(s[i..]) {
        ProtocolChars(s[i..], 4 - i);
      }
    }
  }

  /** 'script:' holds no 'j', so the protocol starts nowhere in it. */
  lemma NoProtocolIn(tail: string)
    requires tail == "script:"
    ensures forall i :: 0 <= i <= |tail| ==> !StartsWithProtocol(tail[i..])
  {
    forall i | 0 <= i <= |tail| ensures !StartsWithProtocol(tail[i..]) {
      if StartsWithProtocol(tail[i..]) {
        ProtocolChars(tail[i..], 0);
      }
    }
  }

  /** A character that does not start the protocol is kept in front of the rest of the pass. */
  lemma KeepAt(s: string, k: int, m: int, t: string)
    requires 0 < k <= m <= |s| && !StartsWithProtocol(s[k - 1..]) && RemoveProtocol(s[k..]) == s[k..m] + t
    ensures RemoveProtocol(s[k - 1..]) == s[k - 1..m] + t
  {
    assert s[k - 1..][1..] == s[k..];
    assert s[k - 1..m] + t == [s[k - 1]] + (s[k..m] + t);
  }

  lemma {:induction false} RemoveAnglesOfClean(s: string)
    requires forall i :: 0 <= i < |s| ==> s[i] != '<' && s[i] != '>'
    ensures RemoveAngles(s) == s
    decreases |s|
  {
    if s != [] {
      RemoveAnglesOfClean(s[1..]);
    }
  }

  /**
   * `validateSearchTerms`: refuses a non-array and an empty array; otherwise the
   * sanitised terms that are not empty, in order. The result may be empty.
   */
  function ValidateSearchTerms(terms: Option<seq<Option<string>>>): (r: Result<seq<string>, string>)
    ensures r.Failure? <==> terms.None? || terms.value == []
    ensures r.Success? ==> |r.value| <= |terms.value|
    ensures r.Success? ==> forall k :: 0 <= k < |r.value| ==>
              r.value[k] != "" && IsTrimmed(r.value[k]) && '<' !in r.value[k] && '>' !in r.value[k]
    ensures r.Success? ==> Seqs.IsSubsequence(r.value, SanitizeAll(terms.value))
    ensures r.Success? ==> forall t :: t != "" ==> multiset(r.value)[t] == multiset(SanitizeAll(terms.value))[t]
  {
    if terms.None? then Failure("Search terms must be an array")
    else if terms.value == [] then Failure("At least one search term is required")
    else
      var sanitized := SanitizeAll(terms.value);
      var kept := Seqs.Filter(NonEmpty, sanitized);
      Seqs.FilterMembers(NonEmpty, sanitized, "");
      SanitizedMembers(terms.value, sanitized, kept);
      Seqs.FilterIsSubsequence(NonEmpty, sanitized);
      assert forall t :: t != "" ==> multiset(kept)[t] == multiset(sanitized)[t] by {
        forall t | t != "" ensures multiset(kept)[t] == multiset(sanitized)[t] {
          Seqs.FilterCounts(NonEmpty, sanitized, t);
        }
      }
      Success(kept)
  }

  /** `searchTerms.map(term => this.sanitizeInput(term))`. */
  function SanitizeAll(terms: seq<Option<string>>): (r: seq<string>)
    ensures |r| == |terms|
  {
    seq(|terms|, i requires 0 <= i < |terms| => SanitizeInput(terms[i]))
  }

  lemma SanitizedMembers(terms: seq<Option<string>>, sanitized: seq<string>, kept: seq<string>)
    requires sanitized == SanitizeAll(terms)
    requires kept == Seqs.Filter(NonEmpty, sanitized)
    ensures forall k :: 0 <= k < |kept| ==> IsTrimmed(kept[k]) && '<' !in kept[k] && '>' !in kept[k]
  {
    forall k | 0 <= k < |kept|
      ensures IsTrimmed(kept[k]) && '<' !in kept[k] && '>' !in kept[k]
    {
      Seqs.FilterMembers(NonEmpty, sanitized, kept[k]);
    }
  }

  /** Non-empty input can still give no terms: a term of angle brackets only sanitises to nothing. */
  lemma ValidateSearchTermsMayBeEmpty()
    ensures ValidateSearchTerms(Some([Some("<>")])) == Success([])
  {
    assert RemoveAngles("<>") == [];
    assert RemoveProtocol([]) == [];
  }

  /** The filter of `validatePapers`: a present record with a non-empty title, authors, and numeric citations and relevance. */
  predicate Listable(paper: Option<PaperProcessor.PaperRecord>) {
    && paper.Some?
    && paper.value.title.Some? && |paper.value.title.value| > 0
    && paper.value.authors.Some?
    && paper.value.citations.Some?
    && paper.value.relevanceScore.Some?
  }

  /** `validatePapers`: refuses a non-array; otherwise keeps the listable records in order. */
  function ValidatePapers(papers: Option<seq<Option<PaperProcessor.PaperRecord>>>): (r: Result<seq<Option<PaperProcessor.PaperRecord>>, string>)
    ensures r.Failure? <==> papers.None?
    ensures r.Success? ==> Seqs.IsSubsequence(r.value, papers.value)
    ensures r.Success? ==> forall k :: 0 <= k < |r.value| ==> Listable(r.value[k])
    ensures r.Success? ==> forall p :: p in papers.value && Listable(p) ==> p in r.value
  {
    if papers.None? then Failure("Papers must be an array")
    else
      var kept := Seqs.Filter(Listable, papers.value);
      Seqs.FilterIsSubsequence(Listable, papers.value);
      FilterKeepsListable(papers.value);
      Success(kept)
  }

  lemma FilterKeepsListable(papers: seq<Option<PaperProcessor.PaperRecord>>)
    ensures forall p :: p in papers && Listable(p) ==> p in Seqs.Filter(Listable, papers)
  {
    forall p | p in papers && Listable(p)
      ensures p in Seqs.Filter(Listable, papers)
    {
      Seqs.FilterMembers(Listable, papers, p);
    }
  }

  /**
   * Unlike `validatePaper`, the list filter does not bound the relevance score:
   * every record `validatePaper` accepts is listable, but not the other way round.
   */
  lemma ValidatePapersLooserThanValidatePaper(r: PaperProcessor.PaperRecord)
    ensures PaperProcessor.ValidatePaper(r) ==> Listable(Some(r))
    ensures var q := r.(title := Some("T"), authors := Some([]), citations := Some(0), relevanceScore := Some(1.5));
            Listable(Some(q)) && !PaperProcessor.ValidatePaper(q)
  {
  }

  datatype Request = Request(httpMethod: string)

  /** `validateRequest`: only a POST request passes. */
  function ValidateRequest(request: Option<Request>): (r: Result<bool, string>)
    ensures r.Success? <==> request.Some? && request.value.httpMethod == "POST"
    ensures r.Success? ==> r.value
  {
    if request.None? then Failure("Request is required")
    else if request.value.httpMethod != "POST" then Failure("Only POST requests are allowed")
    else Success(true)
  }
}
