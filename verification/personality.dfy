/** `analyzePersonality` and `generateProfileSummary`: the two uses of the
    Gemini model. The remote call is an oracle indexed by attempt number, JSON
    parsing is the `Parser` of `ReplyParsing`, and the back-off timers are not
    waited on but returned as the list of delays requested. */
module Personality {
  import opened Wrappers
  import opened Text
  import opened Json
  import opened ReplyParsing

  /** What one `generateContent` call gives `analyzePersonality`. */
  datatype CallOutcome =
    | Reply(text: string)              // a response whose `text()` yields `text`
    | NoResponse                       // the response, or its `text` method, is missing
    | Thrown(message: Option<string>)  // the call rejected; `None` when the rejection value has no string `message`

  // The messages of the errors the function throws itself, each written as the
  // two halves on which `NotRetryableBySplit` shows it is not retryable.
  const EmptyResponseMessage := "Empty or invalid" + " response from Gemini API"
  const EmptyTextMessage := "Empty response text" + " from Gemini API"
  const InvalidStructureMessage := "Invalid" + " response structure from Gemini API"
  /** The `TypeError` V8 raises for `null.interests`. */
  const NullReadMessage := "Cannot read properties" + " of null (reading 'interests')"

  /** The default for the `retries` parameter. */
  const DefaultRetries := 3
  /** Milliseconds per step of the back-off. */
  const BackoffUnit := 2000

  /** The profile used whenever analysis gives up. */
  const DefaultAnalysis: Value :=
    Obj(map[
      "interests" := Arr([Str("movies"), Str("music"), Str("technology")]),
      "traits" := Arr([Str("curious"), Str("creative"), Str("analytical")]),
      "preferences" := Obj(map[
        "genres" := Arr([Str("science fiction"), Str("drama")]),
        "themes" := Arr([Str("innovation"), Str("adventure")])])])

  /** The structure check: `interests`, `traits` and `preferences` are all truthy. */
  predicate HasAnalysisShape(v: Value) {
    TruthyOpt(Field(v, "interests")) && TruthyOpt(Field(v, "traits")) && TruthyOpt(Field(v, "preferences"))
  }

  /** An error message that earns another attempt. */
  predicate IsRetryable(message: string) {
    Contains(message, "overloaded") || Contains(message, "503") || Contains(message, "Failed to parse")
  }

  /** One pass through the `try` block: the accepted analysis, or the `message`
      of what it threw (`None` when the thrown value carries no string message). */
  function Attempt(outcome: CallOutcome, parse: Parser): (r: Result<Value, Option<string>>)
    ensures r.Ok? ==> outcome.Reply? && HasAnalysisShape(r.value)
    ensures r == Err(None) <==> outcome == Thrown(None)
    ensures outcome.Reply? && |outcome.text| > 0 && parse(outcome.text).Ok? && HasAnalysisShape(parse(outcome.text).value)
            ==> r == Ok(parse(outcome.text).value)
  {
    match outcome
    case Thrown(m) => Err(m)
    case NoResponse => Err(Some(EmptyResponseMessage))
    case Reply(text) =>
      if |text| == 0 then Err(Some(EmptyTextMessage))
      else
        match SafeJsonParse(text, parse)
        case Err(m) => Err(Some(m))
        case Ok(v) =>
          if v.Null? then Err(Some(NullReadMessage))
          else if HasAnalysisShape(v) then Ok(v)
          else Err(Some(InvalidStructureMessage))
  }

  /** An attempt is accepted exactly when the reply text is non-empty, one of
      the recovery steps of `safeJsonParse` reads it, and what it reads is
      well-shaped; the analysis is then that value, read from some slice of
      the reply. */
  lemma AttemptAccepted(outcome: CallOutcome, parse: Parser)
    ensures var r := Attempt(outcome, parse);
            r.Ok? <==> && outcome.Reply? && |outcome.text| > 0 && SafeJsonParse(outcome.text, parse).Ok?
                       && HasAnalysisShape(SafeJsonParse(outcome.text, parse).value)
    ensures var r := Attempt(outcome, parse);
            r.Ok? ==> && r.value == SafeJsonParse(outcome.text, parse).value
                      && exists i, j :: 0 <= i <= j <= |outcome.text| && parse(outcome.text[i..j]) == Ok(r.value)
  {
  }

  /** How a call to `analyzePersonality` settles. */
  datatype Settled =
    | Resolved(analysis: Value)
    | Rejected   // the catch block itself throws, reading `includes` of an absent message

  /** A settled call, the back-off delays it waited through, and the number of
      Gemini calls it made. */
  datatype Run = Run(settled: Settled, delays: seq<int>, calls: nat)

  /** A failed attempt whose message passes the retry test. */
  predicate RetryableErr(t: Result<Value, Option<string>>, retryable: string -> bool) {
    t.Err? && t.error.Some? && retryable(t.error.value)
  }

  /** How the loop settles on the attempt it stops at: with the accepted
      analysis, rejecting on a message-less throw, or with the fallback. */
  function Settle(t: Result<Value, Option<string>>, fallback: Value): Settled {
    match t
    case Ok(v) => Resolved(v)
    case Err(None) => Rejected
    case Err(Some(_)) => Resolved(fallback)
  }

  /** The retry loop of `analyzePersonality` over the results its attempts
      give (`tries(n)` for the `n`-th call), with `retryable` as the test on
      error messages and `fallback` as the default. The loop calls again
      exactly after a retryable failure while calls remain, waits before each
      such call, and settles on the last attempt it made. */
  function Retry(retries: int, attempt: nat, tries: nat -> Result<Value, Option<string>>,
                 retryable: string -> bool, fallback: Value): (r: Run)
    ensures retries <= 0 ==> r == Run(Resolved(fallback), [], 0)
    ensures retries > 0 ==> 1 <= r.calls <= retries
    ensures forall k :: 0 <= k < |r.delays| ==> r.delays[k] == BackoffUnit * (4 - (retries - k))
    ensures forall n :: attempt <= n < attempt + |r.delays| ==> RetryableErr(tries(n), retryable)
    ensures r.calls > 0 ==>
              |r.delays| == (if RetryableErr(tries(attempt + r.calls - 1), retryable) then r.calls else r.calls - 1)
    ensures r.calls > 0 && RetryableErr(tries(attempt + r.calls - 1), retryable) ==> r.calls == retries
    ensures r.calls > 0 ==> r.settled == Settle(tries(attempt + r.calls - 1), fallback)
    decreases if retries < 0 then 0 else retries
  {
    if retries <= 0 then Run(Resolved(fallback), [], 0)
    else
      match tries(attempt)
      case Ok(v) => Run(Resolved(v), [], 1)
      case Err(None) => Run(Rejected, [], 1)
      case Err(Some(m)) =>
        if retryable(m) then Backoff(retries, Retry(retries - 1, attempt + 1, tries, retryable, fallback))
        else Run(Resolved(fallback), [], 1)
  }

  /** One more call, made after waiting `BackoffUnit * (4 - retries)`, before the
      run `rest` of the remaining `retries - 1`. */
  function Backoff(retries: int, rest: Run): (r: Run)
    requires forall k :: 0 <= k < |rest.delays| ==> rest.delays[k] == BackoffUnit * (4 - (retries - 1 - k))
    ensures r.settled == rest.settled && r.calls == rest.calls + 1
    ensures |r.delays| == |rest.delays| + 1 && r.delays[0] == BackoffUnit * (4 - retries)
    ensures forall k :: 1 <= k < |r.delays| ==> r.delays[k] == rest.delays[k - 1]
  {
    Run(rest.settled, [BackoffUnit * (4 - retries)] + rest.delays, rest.calls + 1)
  }

  /** `analyzePersonality(userInput, retries)`, its `attempt`-th call to Gemini
      being `gemini(attempt)`. Which calls are retried and which call the result
      comes from is stated by `RetriedAfterRetryableFailures`,
      `StopsOnFinalAttempt`, `SettlesOnLastCall`, `AcceptedFromLastCall` and
      `RejectedAfterBareThrow`. */
  function AnalyzePersonality(retries: int, attempt: nat, gemini: nat -> CallOutcome, parse: Parser): (r: Run)
    ensures retries <= 0 ==> r.calls == 0
    ensures retries > 0 ==> 1 <= r.calls <= retries
    ensures |r.delays| <= r.calls
    ensures forall k :: 0 <= k < |r.delays| ==> r.delays[k] == BackoffUnit * (4 - (retries - k))
    ensures r.settled.Resolved? ==> HasAnalysisShape(r.settled.analysis)
  {
    var r := Retry(retries, attempt, Attempts(gemini, parse), IsRetryable, DefaultAnalysis);
    DefaultAnalysisHasShape();
    AttemptsShaped(gemini, parse);
    ResolvedShaped(retries, attempt, Attempts(gemini, parse), IsRetryable, DefaultAnalysis, HasAnalysisShape);
    r
  }

  /** The result of every call, by attempt number. */
  function Attempts(gemini: nat -> CallOutcome, parse: Parser): nat -> Result<Value, Option<string>> {
    (n: nat) => Attempt(gemini(n), parse)
  }

  lemma AttemptsAt(gemini: nat -> CallOutcome, parse: Parser, n: nat)
    ensures Attempts(gemini, parse)(n) == Attempt(gemini(n), parse)
  {
  }

  /** Every accepted attempt is a well-shaped analysis. */
  lemma AttemptsShaped(gemini: nat -> CallOutcome, parse: Parser)
    ensures forall n: nat :: Attempts(gemini, parse)(n).Ok? ==> HasAnalysisShape(Attempts(gemini, parse)(n).value)
  {
    forall n: nat
      ensures Attempts(gemini, parse)(n).Ok? ==> HasAnalysisShape(Attempts(gemini, parse)(n).value)
    {
      AttemptsAt(gemini, parse, n);
    }
  }

  /** When the fallback and every accepted attempt satisfy `shaped`, so does
      whatever the retry loop resolves with. */
  lemma ResolvedShaped(retries: int, attempt: nat, tries: nat -> Result<Value, Option<string>>,
                       retryable: string -> bool, fallback: Value, shaped: Value -> bool)
    requires shaped(fallback)
    requires forall n: nat :: tries(n).Ok? ==> shaped(tries(n).value)
    ensures var r := Retry(retries, attempt, tries, retryable, fallback);
            r.settled.Resolved? ==> shaped(r.settled.analysis)
  {
    var r := Retry(retries, attempt, tries, retryable, fallback);
    if r.calls > 0 {
      var t := tries(attempt + r.calls - 1);
      assert r.settled == Settle(t, fallback);
    }
  }

  /** Settling on an attempt with anything but the default means that attempt
      was accepted. */
  lemma SettledAccepted(r: Run, t: Result<Value, Option<string>>)
    requires r.settled == Settle(t, DefaultAnalysis)
    ensures r.settled.Resolved? && r.settled.analysis != DefaultAnalysis ==> t == Ok(r.settled.analysis)
  {
  }

  /** A Gemini call that earns another try: the SDK threw a message mentioning
      an overload, a 503 or a parse failure, or the reply text could not be
      parsed by any of the three recovery steps. */
  predicate RetryableFailure(outcome: CallOutcome, parse: Parser) {
    || (outcome.Thrown? && outcome.message.Some? && IsRetryable(outcome.message.value))
    || (outcome.Reply? && |outcome.text| > 0 && SafeJsonParse(outcome.text, parse).Err?)
  }

  /** The attempt of call `n` is a retryable error exactly when call `n` was a
      retryable failure. */
  lemma RetryableAt(gemini: nat -> CallOutcome, parse: Parser, n: nat)
    ensures RetryableErr(Attempts(gemini, parse)(n), IsRetryable) <==> RetryableFailure(gemini(n), parse)
  {
    AttemptsAt(gemini, parse, n);
    AttemptRetryableIff(gemini(n), parse);
  }

  /** Every back-off delay follows a retryable failure of the call before it. */
  lemma RetriedAfterRetryableFailures(retries: int, attempt: nat, gemini: nat -> CallOutcome, parse: Parser)
    ensures var r := AnalyzePersonality(retries, attempt, gemini, parse);
            forall n :: attempt <= n < attempt + |r.delays| ==> RetryableFailure(gemini(n), parse)
  {
    forall n: nat
      ensures RetryableErr(Attempts(gemini, parse)(n), IsRetryable) <==> RetryableFailure(gemini(n), parse)
    {
      RetryableAt(gemini, parse, n);
    }
  }

  /** `analyzePersonality` is the retry loop over its calls' attempts. */
  lemma AnalysisLoop(retries: int, attempt: nat, gemini: nat -> CallOutcome, parse: Parser)
    ensures AnalyzePersonality(retries, attempt, gemini, parse)
              == Retry(retries, attempt, Attempts(gemini, parse), IsRetryable, DefaultAnalysis)
  {
  }

  /** What the loop's contract says about its last call, for the attempts of
      `analyzePersonality`'s calls. */
  lemma LastAttemptFacts(retries: int, attempt: nat, gemini: nat -> CallOutcome, parse: Parser)
    ensures var r := AnalyzePersonality(retries, attempt, gemini, parse);
            r.calls > 0 ==>
              var last := Attempts(gemini, parse)(attempt + r.calls - 1);
              && |r.delays| == (if RetryableErr(last, IsRetryable) then r.calls else r.calls - 1)
              && (RetryableErr(last, IsRetryable) ==> r.calls == retries)
              && r.settled == Settle(last, DefaultAnalysis)
  {
  }

  /** Without calls, the default. */
  lemma NoCallsDefault(retries: int, attempt: nat, gemini: nat -> CallOutcome, parse: Parser)
    ensures var r := AnalyzePersonality(retries, attempt, gemini, parse);
            r.calls == 0 ==> r.settled == Resolved(DefaultAnalysis)
  {
  }

  lemma StopsOnFinalAttempt(retries: int, attempt: nat, gemini: nat -> CallOutcome, parse: Parser)
    ensures var r := AnalyzePersonality(retries, attempt, gemini, parse);
            r.calls > 0 ==>
              && |r.delays| == (if RetryableFailure(gemini(attempt + r.calls - 1), parse) then r.calls else r.calls - 1)
              && (RetryableFailure(gemini(attempt + r.calls - 1), parse) ==>
                    r.calls == retries && r.settled == Resolved(DefaultAnalysis))
  {
    var r := AnalyzePersonality(retries, attempt, gemini, parse);
    LastAttemptFacts(retries, attempt, gemini, parse);
    if r.calls > 0 {
      var n := attempt + r.calls - 1;
      RetryableAt(gemini, parse, n);
      LastTryDecides(r, retries, Attempts(gemini, parse)(n), RetryableFailure(gemini(n), parse));
    }
  }

  lemma LastTryDecides(r: Run, retries: int, last: Result<Value, Option<string>>, failure: bool)
    requires r.calls > 0
    requires |r.delays| == (if RetryableErr(last, IsRetryable) then r.calls else r.calls - 1)
    requires RetryableErr(last, IsRetryable) ==> r.calls == retries
    requires r.settled == Settle(last, DefaultAnalysis)
    requires RetryableErr(last, IsRetryable) <==> failure
    ensures |r.delays| == (if failure then r.calls else r.calls - 1)
    ensures failure ==> r.calls == retries && r.settled == Resolved(DefaultAnalysis)
  {
  }

  lemma SettlesOnLastCall(retries: int, attempt: nat, gemini: nat -> CallOutcome, parse: Parser)
    ensures var r := AnalyzePersonality(retries, attempt, gemini, parse);
            r.calls > 0 ==> r.settled == Settle(Attempt(gemini(attempt + r.calls - 1), parse), DefaultAnalysis)
    ensures var r := AnalyzePersonality(retries, attempt, gemini, parse);
            r.calls == 0 ==> r.settled == Resolved(DefaultAnalysis)
  {
    var r := AnalyzePersonality(retries, attempt, gemini, parse);
    LastAttemptFacts(retries, attempt, gemini, parse);
    NoCallsDefault(retries, attempt, gemini, parse);
    if r.calls > 0 {
      var n := attempt + r.calls - 1;
      AttemptsAt(gemini, parse, n);
      SettledOn(r, Attempts(gemini, parse)(n), Attempt(gemini(n), parse));
    }
  }

  lemma SettledOn(r: Run, t: Result<Value, Option<string>>, u: Result<Value, Option<string>>)
    requires r.settled == Settle(t, DefaultAnalysis) && t == u
    ensures r.settled == Settle(u, DefaultAnalysis)
  {
  }

  /** A resolved analysis other than the default is what the last call was
      accepted with. */
  lemma AcceptedFromLastCall(retries: int, attempt: nat, gemini: nat -> CallOutcome, parse: Parser)
    ensures var r := AnalyzePersonality(retries, attempt, gemini, parse);
            r.settled.Resolved? && r.settled.analysis != DefaultAnalysis ==>
              r.calls > 0 && Attempt(gemini(attempt + r.calls - 1), parse) == Ok(r.settled.analysis)
  {
    var r := AnalyzePersonality(retries, attempt, gemini, parse);
    SettlesOnLastCall(retries, attempt, gemini, parse);
    if r.calls > 0 {
      var n := attempt + r.calls - 1;
      SettledAccepted(r, Attempt(gemini(n), parse));
    }
  }

  /** The call rejects exactly when its last call threw a value with no message. */
  lemma RejectedAfterBareThrow(retries: int, attempt: nat, gemini: nat -> CallOutcome, parse: Parser)
    ensures var r := AnalyzePersonality(retries, attempt, gemini, parse);
            r.settled.Rejected? <==> r.calls > 0 && gemini(attempt + r.calls - 1) == Thrown(None)
  {
    var r := AnalyzePersonality(retries, attempt, gemini, parse);
    if r.calls > 0 {
      AttemptsAt(gemini, parse, attempt + r.calls - 1);
    }
  }

  lemma DefaultAnalysisHasShape()
    ensures HasAnalysisShape(DefaultAnalysis)
  {
  }

  /** With no retries left, nothing is asked and the default comes back. */
  lemma OutOfRetries(retries: int, attempt: nat, gemini: nat -> CallOutcome, parse: Parser)
    requires retries <= 0
    ensures AnalyzePersonality(retries, attempt, gemini, parse) == Run(Resolved(DefaultAnalysis), [], 0)
  {
  }

  /** A first reply that parses to a well-shaped analysis is returned after one call. */
  lemma FirstReplyAccepted(retries: int, gemini: nat -> CallOutcome, parse: Parser)
    requires retries > 0
    requires gemini(0).Reply? && |gemini(0).text| > 0
    requires parse(gemini(0).text).Ok? && HasAnalysisShape(parse(gemini(0).text).value)
    ensures AnalyzePersonality(retries, 0, gemini, parse) == Run(Resolved(parse(gemini(0).text).value), [], 1)
  {
  }

  /** None of the errors the function raises itself is retryable. */
  lemma InternalMessagesNotRetryable()
    ensures !IsRetryable(EmptyResponseMessage)
    ensures !IsRetryable(EmptyTextMessage)
    ensures !IsRetryable(InvalidStructureMessage)
    ensures !IsRetryable(NullReadMessage)
  {
    EmptyResponseNotRetryable();
    EmptyTextNotRetryable();
    InvalidStructureNotRetryable();
    NullReadNotRetryable();
  }

  /** The characters that rule out each retryable phrase across a split. */
  predicate SplitAvoids(x: string, y: string) {
    && (NoV(x, y) || NoEndingEd(x, y))
    && '5' !in x && '5' !in y && 'F' !in x && 'F' !in y
  }

  /** No `v`, so no "overloaded". */
  predicate NoV(x: string, y: string) {
    'v' !in x && 'v' !in y
  }

  /** No `e` before the split and no `d` after it, so no "ed" can end an
      "overloaded" that would have to straddle it or sit on one side. */
  predicate NoEndingEd(x: string, y: string) {
    'e' !in x && 'd' !in y
  }

  /** A message split as `x + y` avoids "overloaded" when neither part has its
      `v`, or when no occurrence can find its final `ed` (`e` absent from `x`,
      `d` from `y`); it avoids "503" and "Failed to parse" by lacking `5` and `F`. */
  lemma NotRetryableBySplit(m: string, x: string, y: string)
    requires m == x + y && SplitAvoids(x, y)
    ensures !IsRetryable(m)
  {
    assert '5' !in m && 'F' !in m;
    var over := "overloaded";
    if NoV(x, y) {
      assert over[1] == 'v';
      AbsentChar(m, over, 1);
    } else {
      assert over[8] == 'e' && over[9] == 'd';
      AbsentPair(x, y, over, 8);
    }
    var digits := "503";
    assert digits[0] == '5';
    AbsentChar(m, digits, 0);
    var failed := "Failed to parse";
    assert failed[0] == 'F';
    AbsentChar(m, failed, 0);
  }

  lemma EmptyResponseNotRetryable()
    ensures !IsRetryable(EmptyResponseMessage)
  {
    EmptyResponseSplit();
    NotRetryableBySplit(EmptyResponseMessage, "Empty or invalid", " response from Gemini API");
  }

  lemma EmptyResponseSplit()
    ensures SplitAvoids("Empty or invalid", " response from Gemini API")
  {
    assert NoEndingEd("Empty or invalid", " response from Gemini API");
  }

  lemma EmptyTextNotRetryable()
    ensures !IsRetryable(EmptyTextMessage)
  {
    EmptyTextSplit();
    NotRetryableBySplit(EmptyTextMessage, "Empty response text", " from Gemini API");
  }

  lemma EmptyTextSplit()
    ensures SplitAvoids("Empty response text", " from Gemini API")
  {
    assert NoV("Empty response text", " from Gemini API");
  }

  lemma InvalidStructureNotRetryable()
    ensures !IsRetryable(InvalidStructureMessage)
  {
    InvalidStructureSplit();
    NotRetryableBySplit(InvalidStructureMessage, "Invalid", " response structure from Gemini API");
  }

  lemma InvalidStructureSplit()
    ensures SplitAvoids("Invalid", " response structure from Gemini API")
  {
    assert NoEndingEd("Invalid", " response structure from Gemini API");
  }

  lemma NullReadNotRetryable()
    ensures !IsRetryable(NullReadMessage)
  {
    NullReadSplit();
    NotRetryableBySplit(NullReadMessage, "Cannot read properties", " of null (reading 'interests')");
  }

  lemma NullReadSplit()
    ensures SplitAvoids("Cannot read properties", " of null (reading 'interests')")
  {
    assert NoV("Cannot read properties", " of null (reading 'interests')");
  }

  /** An attempt is retried exactly when the SDK's error mentions an overload,
      a 503 or a parse failure, or when the reply text cannot be parsed. */
  lemma AttemptRetryableIff(outcome: CallOutcome, parse: Parser)
    ensures (var r := Attempt(outcome, parse);
             r.Err? && r.error.Some? && IsRetryable(r.error.value))
        <==> (|| (outcome.Thrown? && outcome.message.Some? && IsRetryable(outcome.message.value))
              || (outcome.Reply? && |outcome.text| > 0 && SafeJsonParse(outcome.text, parse).Err?))
  {
    InternalMessagesNotRetryable();
    if outcome.Reply? && |outcome.text| > 0 && SafeJsonParse(outcome.text, parse).Err? {
      ParseFailureMentionsParse(outcome.text, parse);
    }
  }

  /** Three retryable failures in a row, whatever each one is: back-off of 2,
      4 and 6 seconds, then the default (a fourth call is cut off by the
      `retries <= 0` guard). */
  lemma PersistentFailureFallsBack(gemini: nat -> CallOutcome, parse: Parser)
    requires forall k :: 0 <= k < DefaultRetries ==> RetryableFailure(gemini(k), parse)
    ensures AnalyzePersonality(DefaultRetries, 0, gemini, parse) == Run(Resolved(DefaultAnalysis), [2000, 4000, 6000], 3)
  {
    forall k: nat | k < DefaultRetries
      ensures RetryableErr(Attempts(gemini, parse)(k), IsRetryable)
    {
      RetryableAt(gemini, parse, k);
    }
    AnalysisLoop(DefaultRetries, 0, gemini, parse);
    ThreeRetryableFailures(Attempts(gemini, parse), IsRetryable, DefaultAnalysis);
  }

  lemma ThreeRetryableFailures(tries: nat -> Result<Value, Option<string>>, retryable: string -> bool, fallback: Value)
    requires forall k: nat :: k < 3 ==> RetryableErr(tries(k), retryable)
    ensures Retry(3, 0, tries, retryable, fallback) == Run(Resolved(fallback), [2000, 4000, 6000], 3)
  {
    assert RetryableErr(tries(0), retryable) && RetryableErr(tries(1), retryable) && RetryableErr(tries(2), retryable);
    assert Retry(0, 3, tries, retryable, fallback) == Run(Resolved(fallback), [], 0);
    assert Retry(1, 2, tries, retryable, fallback) == Run(Resolved(fallback), [6000], 1);
    assert Retry(2, 1, tries, retryable, fallback) == Run(Resolved(fallback), [4000, 6000], 2);
  }

  /** A retryable failure followed by a reply that parses to a well-shaped
      analysis: one wait of 2 seconds, and the second reply's analysis. */
  lemma RetryThenAccepted(gemini: nat -> CallOutcome, parse: Parser)
    requires RetryableFailure(gemini(0), parse)
    requires gemini(1).Reply? && |gemini(1).text| > 0
    requires SafeJsonParse(gemini(1).text, parse).Ok? && HasAnalysisShape(SafeJsonParse(gemini(1).text, parse).value)
    ensures AnalyzePersonality(DefaultRetries, 0, gemini, parse)
              == Run(Resolved(SafeJsonParse(gemini(1).text, parse).value), [2000], 2)
  {
    RetryableAt(gemini, parse, 0);
    AttemptsAt(gemini, parse, 1);
    AnalysisLoop(DefaultRetries, 0, gemini, parse);
    RetryThenOk(Attempts(gemini, parse), IsRetryable, DefaultAnalysis, SafeJsonParse(gemini(1).text, parse).value);
  }

  lemma RetryThenOk(tries: nat -> Result<Value, Option<string>>, retryable: string -> bool, fallback: Value, v: Value)
    requires RetryableErr(tries(0), retryable) && tries(1) == Ok(v)
    ensures Retry(3, 0, tries, retryable, fallback) == Run(Resolved(v), [2000], 2)
  {
    assert Retry(2, 1, tries, retryable, fallback) == Run(Resolved(v), [], 1);
  }

  /** The SDK's overload error is one of the retryable ones. */
  lemma OverloadRetryable(detail: string)
    ensures IsRetryable("503 Service Unavailable" + detail)
  {
    assert "503 Service Unavailable" + detail == "503" + (" Service Unavailable" + detail);
    PrefixContains("503", " Service Unavailable" + detail);
  }

  /** A non-retryable failure on the first call gives the default at once,
      without waiting. */
  lemma NonRetryableFallsBack(retries: int, gemini: nat -> CallOutcome, parse: Parser)
    requires retries > 0
    requires Attempt(gemini(0), parse).Err? && Attempt(gemini(0), parse).error.Some?
    requires !IsRetryable(Attempt(gemini(0), parse).error.value)
    ensures AnalyzePersonality(retries, 0, gemini, parse) == Run(Resolved(DefaultAnalysis), [], 1)
  {
  }

  /** What `generateContent` gives `generateProfileSummary`. */
  datatype SummaryOutcome = SummaryText(text: string) | SummaryFails

  const SummaryFallback := "Here's your personalized pop culture twin profile based on your unique personality and interests!"

  /** The summary text, and whether Gemini was asked for it. */
  datatype Summary = Summary(text: string, asked: bool)

  /** Whether `String(v)` returns for a parsed JSON value. An object with an own
      `toString` property throws a `TypeError`: that property cannot be a function,
      so it is skipped, and the inherited `valueOf` returns the object itself,
      which is no primitive. Other objects give "[object Object]", and an array
      joins its elements. */
  predicate Stringifies(v: Value) {
    match v
    case Obj(fields) => "toString" !in fields
    case Arr(items) => forall i :: 0 <= i < |items| ==> Stringifies(items[i])
    case _ => true
  }

  /** Whether `o.join(', ')` returns: `o` is an array all of whose elements
      convert to strings. Anything else either lacks a callable `join` or throws
      while converting an element. */
  predicate Joins(o: Option<Value>) {
    o.Some? && o.value.Arr? && forall i :: 0 <= i < |o.value.items| ==> Stringifies(o.value.items[i])
  }

  /** `generateProfileSummary(traits, interests)`: building the prompt calls
      `join` on both, and any failure there or in the Gemini call gives the
      fixed fallback sentence. */
  function GenerateProfileSummary(traits: Option<Value>, interests: Option<Value>, gemini: SummaryOutcome): (r: Summary)
    ensures r.asked <==> Joins(traits) && Joins(interests)
    ensures r.asked && gemini.SummaryText? ==> r.text == gemini.text
    ensures r.text != SummaryFallback ==> r.asked && gemini == SummaryText(r.text)
  {
    if Joins(traits) && Joins(interests) then
      match gemini
      case SummaryText(t) => Summary(t, true)
      case SummaryFails => Summary(SummaryFallback, true)
    else Summary(SummaryFallback, false)
  }

  /** Arrays of strings, numbers, booleans and `null` always join. */
  lemma PrimitiveArraysJoin(items: seq<Value>)
    requires forall i :: 0 <= i < |items| ==> !items[i].Arr? && !items[i].Obj?
    ensures Joins(Some(Arr(items)))
  {
    forall i | 0 <= i < |items|
      ensures Stringifies(items[i])
    {
      match items[i]
      case Null =>
      case Bool(_) =>
      case Num(_) =>
      case Str(_) =>
    }
  }

  /** A trait that is an object with its own `toString` key makes `join` throw,
      so Gemini is not asked and the fallback sentence comes back. */
  lemma ToStringKeyBlocksSummary(before: seq<Value>, fields: map<string, Value>, after: seq<Value>,
                                 interests: Option<Value>, gemini: SummaryOutcome)
    requires "toString" in fields
    ensures GenerateProfileSummary(Some(Arr(before + [Obj(fields)] + after)), interests, gemini)
              == Summary(SummaryFallback, false)
  {
    var items := before + [Obj(fields)] + after;
    assert items[|before|] == Obj(fields);
    assert !Stringifies(items[|before|]);
  }

  /** The default analysis always gets a Gemini-written summary when Gemini answers. */
  lemma DefaultAnalysisSummarised(gemini: SummaryOutcome)
    ensures GenerateProfileSummary(Field(DefaultAnalysis, "traits"), Field(DefaultAnalysis, "interests"), gemini).asked
  {
  }
}
