/**
 * Error classification and retries of src/utils/error-handler.js. A thrown
 * error is its message; the HTTP response is reduced to its status and the
 * JSON body `createErrorResponse` builds. The sleeps of `withRetry` are
 * recorded as the list of delays instead of being waited for.
 */
module ErrorHandler {
  import opened Wrappers
  import opened Strings
  import Config

  /** The JSON body of an error response: `details` is present only when it is truthy. */
  datatype ErrorBody = ErrorBody(error: string, details: Option<string>)

  datatype ErrorResponse = ErrorResponse(status: int, body: ErrorBody)

  /** `createErrorResponse(status, message, details)`: an absent or empty `details` is dropped from the body. */
  function CreateErrorResponse(status: int, message: string, details: Option<string> := None): (r: ErrorResponse)
    ensures r.status == status && r.body.error == message
    ensures r.body.details.Some? <==> details.Some? && details.value != ""
    ensures r.body.details.Some? ==> r.body.details == details
  {
    var kept := if details.Some? && details.value != "" then details else None;
    ErrorResponse(status, ErrorBody(message, kept))
  }

  /**
   * `handle(error)`: the first of the phrases 'Method not allowed', 'Invalid
   * JSON', 'Query', 'AI' and 'Search' that the message contains decides the
   * response; a message with none of them is an internal error.
   */
  function Handle(message: string): (r: ErrorResponse)
    ensures r.status in {Config.StatusMethodNotAllowed, Config.StatusBadRequest, Config.StatusInternalServerError}
    ensures r.body.details.None?
  {
    if Contains(message, "Method not allowed") then
      CreateErrorResponse(Config.StatusMethodNotAllowed, Config.MethodNotAllowedMessage)
    else if Contains(message, "Invalid JSON") then
      CreateErrorResponse(Config.StatusBadRequest, Config.InvalidJsonMessage)
    else if Contains(message, "Query") then
      CreateErrorResponse(Config.StatusBadRequest, message)
    else if Contains(message, "AI") then
      CreateErrorResponse(Config.StatusInternalServerError, Config.AiErrorMessage)
    else if Contains(message, "Search") then
      CreateErrorResponse(Config.StatusInternalServerError, Config.SearchErrorMessage)
    else
      CreateErrorResponse(Config.StatusInternalServerError, Config.InternalErrorMessage)
  }

  /**
   * The status of a handled error: 405 exactly for 'Method not allowed', 400
   * exactly when 'Invalid JSON' or 'Query' decides, 500 for everything else;
   * only the 'Query' case echoes the message.
   */
  lemma HandleStatus(message: string)
    ensures Handle(message).status == Config.StatusMethodNotAllowed <==> Contains(message, "Method not allowed")
    ensures Handle(message).status == Config.StatusBadRequest <==>
              !Contains(message, "Method not allowed") && (Contains(message, "Invalid JSON") || Contains(message, "Query"))
    ensures Handle(message).status == Config.StatusInternalServerError <==>
              !Contains(message, "Method not allowed") && !Contains(message, "Invalid JSON") && !Contains(message, "Query")
    ensures (!Contains(message, "Method not allowed") && !Contains(message, "Invalid JSON") && Contains(message, "Query"))
            ==> Handle(message).body.error == message
  {
  }

  /**
   * Handling is stable: the message of a handled error is classified again
   * into the very same response, because each fixed message contains its own
   * phrase and none of the earlier ones.
   */
  lemma HandleIsStable(message: string)
    ensures Handle(Handle(message).body.error) == Handle(message)
  {
    if Contains(message, "Method not allowed") {
      MethodNotAllowedPhrases(Config.MethodNotAllowedMessage);
    } else if Contains(message, "Invalid JSON") {
      InvalidJsonPhrases(Config.InvalidJsonMessage);
    } else if Contains(message, "Query") {
    } else if Contains(message, "AI") {
      AiErrorPhrases(Config.AiErrorMessage);
    } else if Contains(message, "Search") {
      SearchErrorPhrases(Config.SearchErrorMessage);
    } else {
      InternalErrorPhrases(Config.InternalErrorMessage);
    }
  }

  /** The 405 message contains its own phrase. */
  lemma MethodNotAllowedPhrases(m: string)
    requires m == Config.MethodNotAllowedMessage
    ensures Contains(m, "Method not allowed")
  {
    ContainsPrefix(m, "Method not allowed");
  }

  /** The 400 JSON message contains 'Invalid JSON' and not the earlier phrase. */
  lemma InvalidJsonPhrases(m: string)
    requires m == Config.InvalidJsonMessage
    ensures !Contains(m, "Method not allowed") && Contains(m, "Invalid JSON")
  {
    InvalidJsonChars(m);
    NotContainsMissingChar(m, "Method not allowed", 'M');
    ContainsPrefix(m, "Invalid JSON");
  }

  lemma InvalidJsonChars(m: string)
    requires m == Config.InvalidJsonMessage
    ensures forall i :: 0 <= i < |m| ==> m[i] != 'M'
  {
  }

  /** The AI message contains 'AI' and none of the earlier phrases. */
  lemma AiErrorPhrases(m: string)
    requires m == Config.AiErrorMessage
    ensures !Contains(m, "Method not allowed") && !Contains(m, "Invalid JSON") && !Contains(m, "Query")
    ensures Contains(m, "AI")
  {
    AiErrorChars(m);
    NotContainsMissingChar(m, "Method not allowed", 'M');
    NotContainsMissingChar(m, "Invalid JSON", 'J');
    NotContainsMissingChar(m, "Query", 'Q');
    ContainsPrefix(m, "AI");
  }

  lemma AiErrorChars(m: string)
    requires m == Config.AiErrorMessage
    ensures forall i :: 0 <= i < |m| ==> m[i] != 'J' && m[i] != 'M' && m[i] != 'Q'
  {
  }

  /** The search message contains 'Search' and none of the earlier phrases. */
  lemma SearchErrorPhrases(m: string)
    requires m == Config.SearchErrorMessage
    ensures !Contains(m, "Method not allowed") && !Contains(m, "Invalid JSON") && !Contains(m, "Query")
    ensures !Contains(m, "AI") && Contains(m, "Search")
  {
    SearchErrorChars(m);
    NotContainsMissingChar(m, "Method not allowed", 'M');
    NotContainsMissingChar(m, "Invalid JSON", 'J');
    NotContainsMissingChar(m, "Query", 'Q');
    NotContainsMissingChar(m, "AI", 'A');
    ContainsPrefix(m, "Search");
  }

  lemma SearchErrorChars(m: string)
    requires m == Config.SearchErrorMessage
    ensures forall i :: 0 <= i < |m| ==> m[i] != 'A' && m[i] != 'J' && m[i] != 'M' && m[i] != 'Q'
  {
  }

  /** The internal-error message contains none of the phrases. */
  lemma InternalErrorPhrases(m: string)
    requires m == Config.InternalErrorMessage
    ensures !Contains(m, "Method not allowed") && !Contains(m, "Invalid JSON") && !Contains(m, "Query")
    ensures !Contains(m, "AI") && !Contains(m, "Search")
  {
    InternalErrorChars(m);
    NotContainsMissingChar(m, "Method not allowed", 'M');
    NotContainsMissingChar(m, "Invalid JSON", 'J');
    NotContainsMissingChar(m, "Query", 'Q');
    NotContainsMissingChar(m, "AI", 'A');
    NotContainsMissingChar(m, "Search", 'S');
  }

  lemma InternalErrorChars(m: string)
    requires m == Config.InternalErrorMessage
    ensures forall i :: 0 <= i < |m| ==> m[i] != 'A' && m[i] != 'J' && m[i] != 'M' && m[i] != 'Q' && m[i] != 'S'
  {
  }

  /** The refusal of a non-POST request contains none of the phrases. */
  lemma NonPostPhrases(m: string)
    requires m == "Only POST requests are allowed"
    ensures !Contains(m, "Method not allowed") && !Contains(m, "Invalid JSON") && !Contains(m, "Query")
    ensures !Contains(m, "AI") && !Contains(m, "Search")
  {
    NonPostChars(m);
    NotContainsMissingChar(m, "Method not allowed", 'M');
    NotContainsMissingChar(m, "Invalid JSON", 'I');
    NotContainsMissingChar(m, "Query", 'Q');
    NotContainsMissingChar(m, "AI", 'I');
    NotContainsMissingChar(m, "Search", 'h');
  }

  lemma NonPostChars(m: string)
    requires m == "Only POST requests are allowed"
    ensures forall i :: 0 <= i < |m| ==> m[i] != 'I' && m[i] != 'M' && m[i] != 'Q' && m[i] != 'h'
  {
  }

  /** The refusal of a blank query contains 'Query' and neither earlier phrase. */
  lemma EmptyQueryPhrases(m: string)
    requires m == "Query cannot be empty"
    ensures !Contains(m, "Method not allowed") && !Contains(m, "Invalid JSON") && Contains(m, "Query")
  {
    EmptyQueryChars(m);
    NotContainsMissingChar(m, "Method not allowed", 'M');
    NotContainsMissingChar(m, "Invalid JSON", 'I');
    ContainsPrefix(m, "Query");
  }

  lemma EmptyQueryChars(m: string)
    requires m == "Query cannot be empty"
    ensures forall i :: 0 <= i < |m| ==> m[i] != 'I' && m[i] != 'M'
  {
  }

  /**
   * The refusal of `validateRequest` mentions none of the phrases and so
   * becomes a 500 internal error, not a 405.
   */
  lemma NonPostRequestIsInternalError()
    ensures Handle("Only POST requests are allowed") ==
            ErrorResponse(Config.StatusInternalServerError, ErrorBody(Config.InternalErrorMessage, None))
  {
    NonPostPhrases("Only POST requests are allowed");
  }

  /** A blank query's refusal contains 'Query' and comes back as a 400 carrying its own text. */
  lemma EmptyQueryIsBadRequest()
    ensures Handle("Query cannot be empty") ==
            ErrorResponse(Config.StatusBadRequest, ErrorBody("Query cannot be empty", None))
  {
    EmptyQueryPhrases("Query cannot be empty");
  }

  /** What `withErrorHandling` yields: the operation's value, or the handled error response. */
  datatype Handled<T> = Value(value: T) | Response(response: ErrorResponse)

  /** `withErrorHandling(operation)`: a successful outcome passes through, a thrown error is handled. */
  function WithErrorHandling<T>(outcome: Result<T, string>): (r: Handled<T>)
    ensures outcome.Success? <==> r.Value?
    ensures outcome.Success? ==> r.value == outcome.value
    ensures outcome.Failure? ==> r.response == Handle(outcome.error) && r.response.body.details.None?
  {
    match outcome
    case Success(v) => Value(v)
    case Failure(e) => Response(Handle(e))
  }

  function Pow2(k: nat): (r: nat)
    ensures r >= 1
  {
    if k == 0 then 1 else 2 * Pow2(k - 1)
  }

  /**
   * A run of `withRetry`: what it returns or throws (`Failure(None)` is a
   * throw of `undefined`), how many times the operation was invoked, and the
   * delays it slept for, in order.
   */
  datatype RetryTrace<T, E> = RetryTrace(result: Result<T, Option<E>>, attempts: nat, delays: seq<int>)

  /**
   * The run of `withRetry` from attempt number `attempt` on, where
   * `outcomeOf(k)` is what the `k`-th invocation of the operation returns or
   * throws.
   */
  function RetryFrom<T, E>(outcomeOf: nat -> Result<T, E>, maxRetries: int, baseDelay: int, attempt: nat): RetryTrace<T, E>
    requires 1 <= attempt
    decreases maxRetries - attempt
  {
    if attempt > maxRetries then RetryTrace(Failure(None), attempt - 1, [])
    else match outcomeOf(attempt)
      case Success(v) => RetryTrace(Success(v), attempt, [])
      case Failure(e) =>
        if attempt == maxRetries then RetryTrace(Failure(Some(e)), attempt, [])
        else
          var rest := RetryFrom(outcomeOf, maxRetries, baseDelay, attempt + 1);
          RetryTrace(rest.result, rest.attempts, [baseDelay * Pow2(attempt - 1)] + rest.delays)
  }

  function Retry<T, E>(outcomeOf: nat -> Result<T, E>, maxRetries: int, baseDelay: int): RetryTrace<T, E> {
    RetryFrom(outcomeOf, maxRetries, baseDelay, 1)
  }

  /** What a run from `attempt` (at most `maxRetries`) on does, attempt by attempt. */
  lemma {:induction false} RetryFromFacts<T, E>(outcomeOf: nat -> Result<T, E>, maxRetries: int, baseDelay: int, attempt: nat)
    requires 1 <= attempt <= maxRetries
    ensures var t := RetryFrom(outcomeOf, maxRetries, baseDelay, attempt);
      && attempt <= t.attempts <= maxRetries
      && (forall k :: attempt <= k < t.attempts ==> outcomeOf(k).Failure?)
      && (t.result.Success? ==> outcomeOf(t.attempts) == Success(t.result.value))
      && (t.result.Failure? ==> t.attempts == maxRetries && outcomeOf(maxRetries).Failure?
                                && t.result.error == Some(outcomeOf(maxRetries).error))
      && |t.delays| == t.attempts - attempt
      && (forall k :: 0 <= k < |t.delays| ==> t.delays[k] == baseDelay * Pow2(attempt - 1 + k))
    decreases maxRetries - attempt
  {
    if outcomeOf(attempt).Failure? && attempt < maxRetries {
      RetryFromFacts(outcomeOf, maxRetries, baseDelay, attempt + 1);
    }
  }

  /**
   * `withRetry` invokes the operation at most `maxRetries` times (never when
   * `maxRetries` is not positive) and stops at the first success, whose value
   * it returns; when every attempt fails it rethrows the last attempt's error.
   */
  lemma RetryOutcome<T, E>(outcomeOf: nat -> Result<T, E>, maxRetries: int, baseDelay: int)
    ensures var t := Retry(outcomeOf, maxRetries, baseDelay);
      && (maxRetries <= 0 ==> t == RetryTrace(Failure(None), 0, []))
      && (maxRetries > 0 ==> 1 <= t.attempts <= maxRetries)
      && (forall k :: 1 <= k < t.attempts ==> outcomeOf(k).Failure?)
      && (t.result.Success? <==> exists k :: 1 <= k <= maxRetries && outcomeOf(k).Success?)
      && (t.result.Success? ==> outcomeOf(t.attempts) == Success(t.result.value))
      && (t.result.Failure? && maxRetries > 0 ==>
            t.attempts == maxRetries && t.result.error == Some(outcomeOf(maxRetries).error))
  {
    var t := Retry(outcomeOf, maxRetries, baseDelay);
    if maxRetries > 0 {
      RetryFromFacts(outcomeOf, maxRetries, baseDelay, 1);
      if exists k :: 1 <= k <= maxRetries && outcomeOf(k).Success? {
        var k :| 1 <= k <= maxRetries && outcomeOf(k).Success?;
        assert !(k < t.attempts);
      }
      if t.result.Success? {
        assert outcomeOf(t.attempts).Success?;
      }
    }
  }

  /**
   * Before attempt k + 1 the run waits `baseDelay * 2^(k - 1)`, and it never
   * waits after its last attempt: there is one delay fewer than attempts.
   */
  lemma RetryDelays<T, E>(outcomeOf: nat -> Result<T, E>, maxRetries: int, baseDelay: int)
    ensures var t := Retry(outcomeOf, maxRetries, baseDelay);
      && |t.delays| == (if t.attempts == 0 then 0 else t.attempts - 1)
      && (forall k :: 0 <= k < |t.delays| ==> t.delays[k] == baseDelay * Pow2(k))
  {
    if maxRetries > 0 {
      RetryFromFacts(outcomeOf, maxRetries, baseDelay, 1);
    }
  }

  /** Fail, fail, succeed under three retries: two waits, of `baseDelay` and twice that. */
  lemma RetryExample(baseDelay: int)
    ensures var t := Retry((k: nat) => if k < 3 then Failure("down") else Success(42), 3, baseDelay);
      t == RetryTrace(Success(42), 3, [baseDelay, 2 * baseDelay])
  {
  }

  /** `withRetry(operation, maxRetries, baseDelay)`: a loop over the attempts, recording each backoff delay. */
  method WithRetry<T, E>(outcomeOf: nat -> Result<T, E>, maxRetries: int, baseDelay: int)
    returns (r: Result<T, Option<E>>, attempts: nat, delays: seq<int>)
    ensures RetryTrace(r, attempts, delays) == Retry(outcomeOf, maxRetries, baseDelay)
  {
    var lastError: Option<E> := None;
    var attempt: nat := 1;
    delays := [];
    while attempt <= maxRetries
      invariant 1 <= attempt && (attempt > 1 ==> attempt <= maxRetries)
      invariant attempt == 1 ==> lastError.None?
      invariant var t := RetryFrom(outcomeOf, maxRetries, baseDelay, attempt);
        Retry(outcomeOf, maxRetries, baseDelay) == RetryTrace(t.result, t.attempts, delays + t.delays)
      decreases maxRetries - attempt
    {
      var outcome := outcomeOf(attempt);
      if outcome.Success? {
        return Success(outcome.value), attempt, delays;
      }
      lastError := Some(outcome.error);
      if attempt == maxRetries {
        return Failure(lastError), attempt, delays;
      }
      var delay := baseDelay * Pow2(attempt - 1);
      delays := delays + [delay];
      attempt := attempt + 1;
    }
    r, attempts := Failure(lastError), attempt - 1;
  }
}
