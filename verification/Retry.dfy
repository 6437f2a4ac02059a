/**
 The retry loop of a request (src/http.rs), over an arbitrary sequence of transport outcomes.
 Durations are in milliseconds; sending, reading and sleeping belong to other libraries.
 */
module Retry {
  import opened Text
  import opened Redaction

  /** What one attempt comes to. */
  datatype Outcome<R> =
    | Response(
        status: nat,
        retryAfter: Option<nat>,     // a readable Retry-After header
        body: Result<R>,             // what reading a successful body gives
        excerpt: Option<string>)     // the trimmed text of an error body, if any
    | Failure(transient: bool, message: string)

  /** How a request ends. `None` as message stands for the fallback text. */
  datatype Ending<R> =
    | Delivered(body: Result<R>)
    | StatusError(status: nat, detail: Option<string>)
    | TransportError(message: Option<string>)

  datatype Policy = Policy(maxRetries: nat, maxDelay: nat, secrets: seq<string>)

  type Query = seq<(string, string)>

  const U64_LIMIT := 0x1_0000_0000_0000_0000

  // ---------- decisions ----------

  /** `automatically_retryable`: the idempotent methods (section 9.2.2 of RFC 9110). */
  predicate AutomaticallyRetryable(verb: string) {
    verb == "GET" || verb == "HEAD" || verb == "PUT" || verb == "DELETE" || verb == "OPTIONS" || verb == "TRACE"
  }

  function MaximumRetries(policy: Policy, verb: string): nat {
    if AutomaticallyRetryable(verb) then policy.maxRetries else 0
  }

  predicate IsRetryableStatus(status: nat) {
    status in [408, 429, 500, 502, 503, 504]
  }

  predicate IsSuccess(status: nat) {
    200 <= status < 300
  }

  /** Whether another attempt could change the result. */
  predicate Retryable<R>(outcome: Outcome<R>) {
    match outcome
    case Response(status, _, _, _) => !IsSuccess(status) && IsRetryableStatus(status)
    case Failure(transient, _) => transient
  }

  function Min(a: nat, b: nat): nat {
    if a < b then a else b
  }

  function Power2(n: nat): nat {
    if n == 0 then 1 else 2 * Power2(n - 1)
  }

  function SaturatingMul(a: nat, b: nat): nat {
    Min(a * b, U64_LIMIT - 1)
  }

  /** `exponential_delay`. */
  function ExponentialDelay(attempt: nat, maximum: nat): nat {
    Min(SaturatingMul(250, Power2(Min(attempt, 16))), maximum)
  }

  /** The pause after a retryable outcome: `retry_delay`, or the plain back-off. */
  function Pause<R>(outcome: Outcome<R>, attempt: nat, maximum: nat): nat {
    if outcome.Response? && outcome.retryAfter.Some? then Min(outcome.retryAfter.value, maximum)
    else ExponentialDelay(attempt, maximum)
  }

  lemma {:induction false} Power2Grows(m: nat, n: nat)
    requires m <= n
    ensures 1 <= Power2(m) <= Power2(n)
  {
    if m < n {
      Power2Grows(m, n - 1);
    } else if n > 0 {
      Power2Grows(m - 1, n - 1);
    }
  }

  /** The back-off never saturates, never shrinks, and stays under the maximum. */
  lemma BackOffGrows(m: nat, n: nat, maximum: nat)
    requires m <= n
    ensures 250 * Power2(Min(n, 16)) < U64_LIMIT
    ensures ExponentialDelay(n, maximum) == Min(250 * Power2(Min(n, 16)), maximum)
    ensures ExponentialDelay(m, maximum) <= ExponentialDelay(n, maximum) <= maximum
  {
    Power2Grows(Min(m, 16), Min(n, 16));
    Power2Grows(Min(n, 16), 16);
    Power2Grows(Min(m, 16), 16);
    assert Power2(4) == 16;
    assert Power2(8) == 16 * Power2(4);
    assert Power2(12) == 16 * Power2(8);
    assert Power2(16) == 16 * Power2(12);
  }

  // ---------- the specification ----------

  /** The attempt that decides: the first outcome not worth repeating, or the last attempt. */
  function Deciding<R>(outcomes: nat -> Outcome<R>, attempt: nat, retries: nat): (k: nat)
    requires attempt <= retries
    ensures attempt <= k <= retries
    ensures k == retries || !Retryable(outcomes(k))
    ensures forall i | attempt <= i < k :: Retryable(outcomes(i))
    decreases retries - attempt
  {
    if attempt < retries && Retryable(outcomes(attempt)) then Deciding(outcomes, attempt + 1, retries) else attempt
  }

  function Conclusion<R>(outcome: Outcome<R>, secrets: seq<string>): Ending<R> {
    match outcome
    case Response(status, _, body, excerpt) =>
      if IsSuccess(status) then Delivered(body)
      else StatusError(status, if excerpt.Some? then Some(Redact(secrets, excerpt.value)) else None)
    case Failure(_, message) => TransportError(Some(Redact(secrets, message)))
  }

  function TotalPause<R>(outcomes: nat -> Outcome<R>, attempts: nat, maximum: nat): nat {
    if attempts == 0 then 0
    else TotalPause(outcomes, attempts - 1, maximum) + Pause(outcomes(attempts - 1), attempts - 1, maximum)
  }

  function Repeat(query: Query, times: nat): seq<Query> {
    if times == 0 then [] else Repeat(query, times - 1) + [query]
  }

  /** The query pairs of one attempt: those of the URL, of the request, and of the credential. */
  function SentQuery(url: Query, query: Query, credential: Option<(string, string)>): Query {
    url + query + if credential.Some? then [credential.value] else []
  }

  lemma RetryStep<R>(outcomes: nat -> Outcome<R>, attempt: nat, retries: nat, maximum: nat)
    requires attempt < retries && Retryable(outcomes(attempt))
    ensures Deciding(outcomes, attempt, retries) == Deciding(outcomes, attempt + 1, retries)
    ensures TotalPause(outcomes, attempt + 1, maximum)
      == TotalPause(outcomes, attempt, maximum) + Pause(outcomes(attempt), attempt, maximum)
  {
  }

  lemma RetryStop<R>(outcomes: nat -> Outcome<R>, attempt: nat, retries: nat)
    requires attempt <= retries && !(attempt < retries && Retryable(outcomes(attempt)))
    ensures Deciding(outcomes, attempt, retries) == attempt
  {
  }

  // ---------- the loop ----------

  /** The pairs appended to a fresh copy of the URL. */
  method AppendPairs(url: Query, query: Query, credential: Option<(string, string)>) returns (full: Query)
    ensures full == SentQuery(url, query, credential)
  {
    full := url;
    for i := 0 to |query|
      invariant full == url + query[..i]
    {
      full := full + [query[i]];
    }
    assert query[..|query|] == query;
    if credential.Some? {
      full := full + [credential.value];
    }
  }

  /**
   `execute`. The result is that of the deciding attempt; every attempt sends the same query;
   the pauses are those of the retried outcomes.
   */
  method Execute<R>(policy: Policy, verb: string, url: Query, query: Query, credential: Option<(string, string)>,
                    outcomes: nat -> Outcome<R>)
    returns (ending: Ending<R>, sent: seq<Query>, slept: nat)
    ensures var k := Deciding(outcomes, 0, MaximumRetries(policy, verb));
      && ending == Conclusion(outcomes(k), policy.secrets)
      && sent == Repeat(SentQuery(url, query, credential), k + 1)
      && slept == TotalPause(outcomes, k, policy.maxDelay)
  {
    var maximumRetries := if AutomaticallyRetryable(verb) then policy.maxRetries else 0;
    var lastError: Option<string> := None;
    sent, slept := [], 0;
    ghost var k := Deciding(outcomes, 0, maximumRetries);
    for attempt := 0 to maximumRetries + 1
      invariant attempt <= k <= maximumRetries
      invariant k == Deciding(outcomes, attempt, maximumRetries)
      invariant sent == Repeat(SentQuery(url, query, credential), attempt)
      invariant slept == TotalPause(outcomes, attempt, policy.maxDelay)
    {
      var full := AppendPairs(url, query, credential);
      sent := sent + [full];
      var outcome := outcomes(attempt);
      if attempt < maximumRetries && Retryable(outcome) {
        RetryStep(outcomes, attempt, maximumRetries, policy.maxDelay);
      } else {
        RetryStop(outcomes, attempt, maximumRetries);
      }
      match outcome
      case Response(status, retryAfter, body, excerpt) =>
        if IsSuccess(status) {
          return Delivered(body), sent, slept;
        }
        if IsRetryableStatus(status) && attempt < maximumRetries {
          slept := slept + Pause(outcome, attempt, policy.maxDelay);
          continue;
        }
        ending := StatusError(status, if excerpt.Some? then Some(Redact(policy.secrets, excerpt.value)) else None);
        return;
      case Failure(transient, message) =>
        lastError := Some(Redact(policy.secrets, message));
        if transient && attempt < maximumRetries {
          slept := slept + ExponentialDelay(attempt, policy.maxDelay);
          continue;
        }
        return TransportError(lastError), sent, slept;
    }
    ending := TransportError(lastError);
  }

  // ---------- what the loop guarantees ----------

  lemma {:induction false} RepeatedQueries(query: Query, times: nat)
    ensures |Repeat(query, times)| == times && forall i | 0 <= i < times :: Repeat(query, times)[i] == query
  {
    if times > 0 {
      RepeatedQueries(query, times - 1);
    }
  }

  lemma {:induction false} PausesAreBounded<R>(outcomes: nat -> Outcome<R>, attempts: nat, maximum: nat)
    ensures TotalPause(outcomes, attempts, maximum) <= attempts * maximum
  {
    if attempts > 0 {
      PausesAreBounded(outcomes, attempts - 1, maximum);
      BackOffGrows(attempts - 1, attempts - 1, maximum);
      assert attempts * maximum == (attempts - 1) * maximum + maximum;
    }
  }

  /** At most `retries + 1` sends and `retries` full pauses; other methods are sent once, at once. */
  lemma ExecutionIsBounded<R>(policy: Policy, verb: string, outcomes: nat -> Outcome<R>)
    ensures var k := Deciding(outcomes, 0, MaximumRetries(policy, verb));
      && k + 1 <= policy.maxRetries + 1
      && TotalPause(outcomes, k, policy.maxDelay) <= policy.maxRetries * policy.maxDelay
      && (!AutomaticallyRetryable(verb) ==> k == 0 && TotalPause(outcomes, k, policy.maxDelay) == 0)
  {
    var k := Deciding(outcomes, 0, MaximumRetries(policy, verb));
    PausesAreBounded(outcomes, k, policy.maxDelay);
    assert k * policy.maxDelay <= policy.maxRetries * policy.maxDelay by {
      Monotone(k, policy.maxRetries, policy.maxDelay);
    }
  }

  lemma Monotone(a: nat, b: nat, c: nat)
    requires a <= b
    ensures a * c <= b * c
  {
  }

  /** An attempt decides exactly when everything before it was worth repeating and it is not, or is the last. */
  lemma {:induction false} DecidingIsExact<R>(outcomes: nat -> Outcome<R>, attempt: nat, retries: nat, k: nat)
    requires attempt <= k <= retries
    ensures Deciding(outcomes, attempt, retries) == k <==>
      (forall i | attempt <= i < k :: Retryable(outcomes(i))) && (k == retries || !Retryable(outcomes(k)))
    decreases retries - attempt
  {
  }

  /** A success behind nothing but retryable outcomes is reached. */
  lemma SuccessIsReached<R>(policy: Policy, verb: string, outcomes: nat -> Outcome<R>, k: nat)
    requires k <= MaximumRetries(policy, verb)
    requires forall i | 0 <= i < k :: Retryable(outcomes(i))
    requires outcomes(k).Response? && IsSuccess(outcomes(k).status)
    ensures Conclusion(outcomes(Deciding(outcomes, 0, MaximumRetries(policy, verb))), policy.secrets)
      == Delivered(outcomes(k).body)
  {
  }

  /** The fallback text never appears, and no text from outside shows a secret. */
  lemma ErrorsAreSafe<R>(policy: Policy, verb: string, outcomes: nat -> Outcome<R>)
    ensures var ending := Conclusion(outcomes(Deciding(outcomes, 0, MaximumRetries(policy, verb))), policy.secrets);
      && ending != TransportError(None)
      && (Hides(policy.secrets) ==> forall secret | secret in policy.secrets && secret != "" ::
        && (ending.StatusError? && ending.detail.Some? ==> !Occurs(secret, ending.detail.value))
        && (ending.TransportError? ==> !Occurs(secret, ending.message.value)))
  {
  }

  /** A body is delivered exactly from a response in the two hundreds. */
  lemma SuccessDelivers<R>(outcome: Outcome<R>, secrets: seq<string>)
    ensures Conclusion(outcome, secrets).Delivered? <==> outcome.Response? && outcome.status / 100 == 2
  {
  }

  /** A pause is what the service asks for, or else the back-off, and never longer than configured. */
  lemma PauseIsExact<R>(outcome: Outcome<R>, attempt: nat, maximum: nat)
    ensures var asked := if outcome.Response? && outcome.retryAfter.Some? then outcome.retryAfter.value
        else 250 * Power2(Min(attempt, 16));
      Pause(outcome, attempt, maximum) <= asked && Pause(outcome, attempt, maximum) in {asked, maximum}
    ensures Pause(outcome, attempt, maximum) <= maximum
  {
    BackOffGrows(attempt, attempt, maximum);
  }

  /** What is worth repeating: a lost connection, a timeout, too many requests, and a server that is briefly unable. */
  lemma RepeatedOutcomes<R>(outcome: Outcome<R>)
    ensures outcome.Failure? ==> (Retryable(outcome) <==> outcome.transient)
    ensures outcome.Response? ==> (Retryable(outcome) <==>
      outcome.status == 408 || outcome.status == 429 || outcome.status == 500 || 502 <= outcome.status <= 504)
  {
  }

  /** Requests that create or change something are sent once, whatever comes of them; reads and replacements again. */
  lemma SentOnce<R>(policy: Policy, verb: string, outcomes: nat -> Outcome<R>)
    ensures verb == "POST" || verb == "PATCH" ==> Deciding(outcomes, 0, MaximumRetries(policy, verb)) == 0
    ensures verb in ["GET", "HEAD", "PUT", "DELETE", "OPTIONS", "TRACE"] ==>
      MaximumRetries(policy, verb) == policy.maxRetries
  {
    assert "POST" != "PUT" && "PATCH"[0] == 'P' && "PUT"[1] != 'A';
  }
}
