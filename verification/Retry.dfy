/** The retrying GET: which failures are retried, how long it waits, and what it hands back. */
module Retry {
  import opened Reals
  import opened Wrappers

  /** A `Retry-After` header: absent, not a number, or a number of seconds. */
  datatype RetryAfter = NoHeader | NotSeconds | Seconds(seconds: real)

  /** What one request comes to. */
  datatype Outcome<T> = Body(body: T) | HttpError(code: int, after: RetryAfter) | TransportError | OtherError

  datatype Failure<T> = BadAttempts | Raised(outcome: Outcome<T>)

  const MAX_RETRY_AFTER := 60.0
  const RETRYABLE_STATUS: set<int> := {429, 500, 502, 503, 504}

  function Pow2(n: nat): (r: nat)
    ensures r >= 1
  {
    if n == 0 then 1 else 2 * Pow2(n - 1)
  }

  function Backoff(delay: real, attempt: nat): real {
    Times(delay, Pow2(attempt) as real)
  }

  predicate Retryable<T>(o: Outcome<T>) {
    match o
    case HttpError(code, _) => code in RETRYABLE_STATUS
    case TransportError => true
    case _ => false
  }

  /** The server's delay in seconds when it names a sane one, else the computed one. */
  function ServerDelay(after: RetryAfter, fallback: real): real {
    if after.Seconds? && 0.0 <= after.seconds <= MAX_RETRY_AFTER then after.seconds else fallback
  }

  function Wait<T>(o: Outcome<T>, delay: real, attempt: nat): real {
    match o
    case HttpError(_, after) => ServerDelay(after, Backoff(delay, attempt))
    case _ => Backoff(delay, attempt)
  }

  /** What must be seen from outside: how many requests, how long each sleep, and the result. */
  ghost predicate Behaves<T(!new)>(server: nat -> Outcome<T>, attempts: int, delay: real,
                             requests: nat, sleeps: seq<real>, r: Result<T, Failure<T>>)
  {
    if attempts < 1 then requests == 0 && sleeps == [] && r == Err(BadAttempts)
    else
      && 1 <= requests <= attempts
      && |sleeps| == requests - 1
      && (forall i: nat :: i < requests - 1 ==> Retryable(server(i)))
      && (forall i: nat :: i < requests - 1 ==> sleeps[i] == Wait(server(i), delay, i))
      && (match server(requests - 1)
          case Body(body) => r == Ok(body)
          case last => r == Err(Raised(last)) && (requests == attempts || !Retryable(last)))
  }

  /** Asks until a body comes, a failure is not worth retrying, or the attempts are spent. */
  method HttpGetWithRetry<T(!new)>(server: nat -> Outcome<T>, attempts: int, delay: real)
    returns (requests: nat, sleeps: seq<real>, r: Result<T, Failure<T>>)
    ensures Behaves(server, attempts, delay, requests, sleeps, r)
  {
    requests, sleeps := 0, [];
    if attempts < 1 {
      r := Err(BadAttempts);
      return;
    }
    var payload: Option<T> := None;
    for attempt := 0 to attempts
      invariant payload == None && attempt < attempts
      invariant requests == attempt && |sleeps| == attempt
      invariant forall i: nat :: i < attempt ==> Retryable(server(i)) && sleeps[i] == Wait(server(i), delay, i)
    {
      var last := attempt == attempts - 1;
      var wait := Backoff(delay, attempt);
      var outcome := server(attempt);
      requests := requests + 1;
      match outcome {
        case Body(body) =>
          payload := Some(body);
          break;
        case HttpError(code, after) =>
          if last || code !in RETRYABLE_STATUS {
            r := Err(Raised(outcome));
            return;
          }
          wait := ServerDelay(after, wait);
        case TransportError =>
          if last {
            r := Err(Raised(outcome));
            return;
          }
        case OtherError =>
          r := Err(Raised(outcome));
          return;
      }
      sleeps := sleeps + [wait];
    }
    r := Ok(payload.value);
  }

  // What that behaviour amounts to

  /** The server's answers and the budget settle everything. */
  lemma {:induction false} BehavesUniquely<T(!new)>(server: nat -> Outcome<T>, attempts: int, delay: real,
                                              requests: nat, sleeps: seq<real>, r: Result<T, Failure<T>>,
                                              requests': nat, sleeps': seq<real>, r': Result<T, Failure<T>>)
    requires Behaves(server, attempts, delay, requests, sleeps, r)
    requires Behaves(server, attempts, delay, requests', sleeps', r')
    ensures requests == requests' && sleeps == sleeps' && r == r'
  {}

  /** A body comes back exactly when some request within the budget succeeds and every one before it
      fails in a way worth retrying. */
  lemma {:induction false} BodyOnlyAfterSuccess<T(!new)>(server: nat -> Outcome<T>, attempts: int, delay: real,
                                                   requests: nat, sleeps: seq<real>, r: Result<T, Failure<T>>)
    requires Behaves(server, attempts, delay, requests, sleeps, r)
    ensures r.Ok? <==>
      exists k: nat :: k < attempts && server(k).Body? && forall i: nat :: i < k ==> Retryable(server(i))
    ensures r.Ok? ==> server(requests - 1) == Body(r.value)
  {}

  /** A sleep lasts what the server asked for when that is a number of seconds up to a minute, and
      `delay * 2**attempt` otherwise. */
  lemma {:induction false} EachSleep<T(!new)>(server: nat -> Outcome<T>, attempts: int, delay: real, requests: nat,
                                        sleeps: seq<real>, r: Result<T, Failure<T>>, i: nat)
    requires Behaves(server, attempts, delay, requests, sleeps, r) && i < |sleeps|
    ensures match server(i)
      case HttpError(code, Seconds(s)) =>
        code in {429, 500, 502, 503, 504} && sleeps[i] == if 0.0 <= s <= 60.0 then s else delay * Pow2(i) as real
      case HttpError(code, _) => code in {429, 500, 502, 503, 504} && sleeps[i] == delay * Pow2(i) as real
      case TransportError => sleeps[i] == delay * Pow2(i) as real
      case _ => false
  {
    assert Retryable(server(i)) && sleeps[i] == Wait(server(i), delay, i);
  }

  /** A request is followed by another one exactly when the budget allows it and it failed with one of
      the five statuses or without an answer. */
  lemma {:induction false} RetriedExactly<T(!new)>(server: nat -> Outcome<T>, attempts: int, delay: real, requests: nat,
                                             sleeps: seq<real>, r: Result<T, Failure<T>>, i: nat)
    requires Behaves(server, attempts, delay, requests, sleeps, r) && i < requests
    ensures i + 1 < requests <==>
      && i + 1 < attempts
      && match server(i)
         case HttpError(code, _) => code == 429 || code == 500 || code == 502 || code == 503 || code == 504
         case TransportError => true
         case _ => false
  {
    if i + 1 < requests {
      assert Retryable(server(i));
    }
  }

  function Total(sleeps: seq<real>): real {
    if sleeps == [] then 0.0 else Total(sleeps[..|sleeps| - 1]) + sleeps[|sleeps| - 1]
  }

  lemma {:induction false} NextBackoff(delay: real, n: nat)
    ensures Backoff(delay, n + 1) == Backoff(delay, n) + Backoff(delay, n)
  {}

  lemma {:induction false} BackoffPositive(delay: real, n: nat)
    requires delay >= 0.0
    ensures Backoff(delay, n) >= delay
  {}

  lemma {:induction false} BackoffGrows(delay: real, m: nat, n: nat)
    requires delay >= 0.0 && m <= n
    ensures Backoff(delay, m) <= Backoff(delay, n)
  {
    if m < n {
      BackoffGrows(delay, m, n - 1);
      NextBackoff(delay, n - 1);
      BackoffPositive(delay, n - 1);
    }
  }

  /** Every sleep is the server's, at most a minute, or the attempt's backoff. */
  ghost predicate Honest(sleeps: seq<real>, delay: real) {
    forall i: nat :: i < |sleeps| ==> 0.0 <= sleeps[i] <= MAX_RETRY_AFTER || sleeps[i] == Backoff(delay, i)
  }

  lemma {:induction false} TotalBound(sleeps: seq<real>, delay: real)
    requires delay >= 0.0 && Honest(sleeps, delay)
    ensures Total(sleeps) <= MAX_RETRY_AFTER * |sleeps| as real + (Backoff(delay, |sleeps|) - delay)
  {
    if sleeps != [] {
      var n := |sleeps| - 1;
      TotalBound(sleeps[..n], delay);
      NextBackoff(delay, n);
      BackoffPositive(delay, n);
      assert |sleeps| as real == n as real + 1.0;
    } else {
      assert Backoff(delay, 0) == delay;
    }
  }

  /** All the sleeps together: at most a minute for each retry and the doubling backoff on top. */
  lemma {:induction false} SleepsBounded<T(!new)>(server: nat -> Outcome<T>, attempts: int, delay: real,
                                            requests: nat, sleeps: seq<real>, r: Result<T, Failure<T>>)
    requires Behaves(server, attempts, delay, requests, sleeps, r) && attempts >= 1 && delay >= 0.0
    ensures Total(sleeps) <= MAX_RETRY_AFTER * (attempts - 1) as real + Times(delay, (Pow2(attempts - 1) - 1) as real)
  {
    assert Honest(sleeps, delay);
    TotalBound(sleeps, delay);
    WorstCase(delay, |sleeps|, attempts - 1);
  }

  lemma {:induction false} WorstCase(delay: real, n: nat, most: nat)
    requires delay >= 0.0 && n <= most
    ensures MAX_RETRY_AFTER * n as real + (Backoff(delay, n) - delay)
         <= MAX_RETRY_AFTER * most as real + Times(delay, (Pow2(most) - 1) as real)
  {
    BackoffGrows(delay, n, most);
    assert n as real <= most as real;
    assert (Pow2(most) - 1) as real == Pow2(most) as real - 1.0;
  }

  lemma {:induction false} BackoffTotal(sleeps: seq<real>, delay: real)
    requires forall i: nat :: i < |sleeps| ==> sleeps[i] == Backoff(delay, i)
    ensures Total(sleeps) == Backoff(delay, |sleeps|) - delay
  {
    if sleeps != [] {
      BackoffTotal(sleeps[..|sleeps| - 1], delay);
      NextBackoff(delay, |sleeps| - 1);
    } else {
      assert Backoff(delay, 0) == delay;
    }
  }

  /** When no server names a usable delay, the sleeps add up to delay · (2ⁿ - 1) exactly. */
  lemma {:induction false} SilentServerSleeps<T(!new)>(server: nat -> Outcome<T>, attempts: int, delay: real,
                                                 requests: nat, sleeps: seq<real>, r: Result<T, Failure<T>>)
    requires Behaves(server, attempts, delay, requests, sleeps, r) && attempts >= 1
    requires forall i: nat :: server(i).HttpError? ==> !server(i).after.Seconds?
    ensures Total(sleeps) == Backoff(delay, requests - 1) - delay
  {
    forall i: nat | i < |sleeps|
      ensures sleeps[i] == Backoff(delay, i)
    {
      assert sleeps[i] == Wait(server(i), delay, i);
    }
    BackoffTotal(sleeps, delay);
  }
}
