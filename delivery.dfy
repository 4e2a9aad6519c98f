/**
 * `send_to_wavelog`: posts one ADIF record to the Wavelog QSO API, retrying
 * transient failures with exponential back-off.
 *
 * The HTTP exchange is not modelled: what attempt `k` yields is the
 * parameter `outcome(k)`, and the method reports, besides its verdict, the
 * requests it posted and the sleeps it asked for, in order.
 */
module Delivery {

  /** How one `requests.post` attempt ends, as the source's `except` clauses tell them apart. */
  datatype AttemptOutcome = Success | Timeout | ConnError | HttpError | OtherRequestError

  /** The failures after which the source tries again: every one except an HTTP error status. */
  predicate Retryable(o: AttemptOutcome)
  {
    o == Timeout || o == ConnError || o == OtherRequestError
  }

  /** The JSON body: `key`, `station_profile_id`, `type` and `string`. */
  datatype Payload = Payload(key: string, stationProfileId: string, kind: string, text: string)

  datatype Request = Request(url: string, payload: Payload)

  /** The request the source posts for `data`: `{wavelog_url}/api/qso` with an `adif` payload. */
  function QsoRequest(wavelogUrl: string, apiKey: string, stationProfileId: string, data: string): Request
  {
    Request(wavelogUrl + "/api/qso", Payload(apiKey, stationProfileId, "adif", data))
  }

  /** `max_retries` when the caller does not give it. */
  const DefaultMaxRetries: int := 3

  function Pow2(k: nat): (p: nat)
    ensures p >= 1
  {
    if k == 0 then 1 else 2 * Pow2(k - 1)
  }

  /** The back-off schedule: `2 ** k` seconds after attempt `k`, for the first `n` attempts. */
  function Backoff(n: nat): (b: seq<nat>)
    ensures |b| == n && forall k :: 0 <= k < n ==> b[k] == Pow2(k)
  {
    seq(n, k requires 0 <= k < n => Pow2(k))
  }

  function Sum(s: seq<nat>): nat
  {
    if s == [] then 0 else Sum(s[..|s| - 1]) + s[|s| - 1]
  }

  /**
   * How many attempts the source makes, counting from attempt `i`: it stops
   * after the first attempt that is not retryable, or when `range(maxRetries)`
   * runs out.
   */
  function AttemptsFrom(outcome: nat -> AttemptOutcome, maxRetries: int, i: nat): nat
    decreases maxRetries - i
  {
    if i >= maxRetries then i
    else if Retryable(outcome(i)) then AttemptsFrom(outcome, maxRetries, i + 1)
    else i + 1
  }

  function Attempts(outcome: nat -> AttemptOutcome, maxRetries: int): nat
  {
    AttemptsFrom(outcome, maxRetries, 0)
  }

  /** The verdict: the last attempt made succeeded. */
  predicate Delivered(outcome: nat -> AttemptOutcome, maxRetries: int)
  {
    var n := Attempts(outcome, maxRetries);
    n > 0 && outcome(n - 1) == Success
  }

  /**
   * The loop `for attempt in range(max_retries)`: post; on success return
   * True; on an HTTP error status return False at once; on any other
   * request failure sleep `2 ** attempt` seconds unless this was the last
   * attempt, and go on. When the range runs out, return False.
   */
  method SendToWavelog(data: string, wavelogUrl: string, apiKey: string, stationProfileId: string,
                       outcome: nat -> AttemptOutcome, maxRetries: int)
      returns (ok: bool, posts: seq<Request>, sleeps: seq<nat>)
    ensures |posts| == Attempts(outcome, maxRetries)
    ensures forall k :: 0 <= k < |posts| ==> posts[k] == QsoRequest(wavelogUrl, apiKey, stationProfileId, data)
    ensures ok <==> Delivered(outcome, maxRetries)
    ensures sleeps == Backoff(if |posts| == 0 then 0 else |posts| - 1)
  {
    var request := QsoRequest(wavelogUrl, apiKey, stationProfileId, data);
    posts, sleeps := [], [];
    var attempt: nat := 0;
    while attempt < maxRetries
      invariant attempt <= maxRetries || attempt == 0
      invariant |posts| == attempt && forall k :: 0 <= k < attempt ==> posts[k] == request
      invariant forall k :: 0 <= k < attempt ==> Retryable(outcome(k))
      invariant AttemptsFrom(outcome, maxRetries, attempt) == Attempts(outcome, maxRetries)
      invariant sleeps == Backoff(if attempt == maxRetries && attempt > 0 then attempt - 1 else attempt)
    {
      posts := posts + [request];
      var o := outcome(attempt);
      if o == Success {
        return true, posts, sleeps;
      }
      if o == HttpError {
        return false, posts, sleeps;
      }
      if attempt < maxRetries - 1 {
        sleeps := sleeps + [Pow2(attempt)];
      }
      attempt := attempt + 1;
    }
    ok := false;
  }

  /**
   * The attempt count, characterised: at most `maxRetries` attempts, at
   * least one when `maxRetries` is positive; every attempt but the last was
   * a retryable failure; and the loop stopped early only at an attempt that
   * was not retryable.
   */
  lemma AttemptsSpec(outcome: nat -> AttemptOutcome, maxRetries: int)
    ensures var n := Attempts(outcome, maxRetries);
      && (maxRetries <= 0 ==> n == 0)
      && (maxRetries > 0 ==> 0 < n <= maxRetries)
      && (forall k :: 0 <= k < n - 1 ==> Retryable(outcome(k)))
      && (0 < n < maxRetries ==> !Retryable(outcome(n - 1)))
  {
    AttemptsFromSpec(outcome, maxRetries, 0);
  }

  lemma {:induction false} AttemptsFromSpec(outcome: nat -> AttemptOutcome, maxRetries: int, i: nat)
    requires i <= maxRetries || i == 0
    ensures var n := AttemptsFrom(outcome, maxRetries, i);
      && (i >= maxRetries ==> n == i)
      && (i < maxRetries ==> i < n <= maxRetries)
      && (forall k :: i <= k < n - 1 ==> Retryable(outcome(k)))
      && (i < n < maxRetries ==> !Retryable(outcome(n - 1)))
    decreases maxRetries - i
  {
    if i < maxRetries && Retryable(outcome(i)) {
      AttemptsFromSpec(outcome, maxRetries, i + 1);
    }
  }

  /**
   * The relay reports success exactly when some attempt within the budget
   * succeeds and every attempt before it failed transiently; that attempt
   * is the last one made.
   */
  lemma DeliveredIff(outcome: nat -> AttemptOutcome, maxRetries: int)
    ensures Delivered(outcome, maxRetries) <==>
      exists k :: 0 <= k < maxRetries && outcome(k) == Success && forall j :: 0 <= j < k ==> Retryable(outcome(j))
  {
    AttemptsSpec(outcome, maxRetries);
    var n := Attempts(outcome, maxRetries);
    if exists k :: 0 <= k < maxRetries && outcome(k) == Success && forall j :: 0 <= j < k ==> Retryable(outcome(j)) {
      var k :| 0 <= k < maxRetries && outcome(k) == Success && forall j :: 0 <= j < k ==> Retryable(outcome(j));
      assert n - 1 == k;
    }
  }

  /** An HTTP error status ends the loop at once: nothing after it is posted and the verdict is False. */
  lemma HttpErrorStops(outcome: nat -> AttemptOutcome, maxRetries: int, k: nat)
    requires k < maxRetries && outcome(k) == HttpError
    requires forall j :: 0 <= j < k ==> Retryable(outcome(j))
    ensures Attempts(outcome, maxRetries) == k + 1
    ensures !Delivered(outcome, maxRetries)
  {
    AttemptsSpec(outcome, maxRetries);
  }

  /**
   * When every attempt fails transiently the relay gives up after exactly
   * `maxRetries` attempts, having slept between each pair of them.
   */
  lemma TransientGivesUp(outcome: nat -> AttemptOutcome, maxRetries: int)
    requires maxRetries > 0
    requires forall k :: 0 <= k < maxRetries ==> Retryable(outcome(k))
    ensures Attempts(outcome, maxRetries) == maxRetries
    ensures !Delivered(outcome, maxRetries)
  {
    AttemptsSpec(outcome, maxRetries);
  }

  /**
   * The first `n` sleeps of the schedule add up to `2 ** n - 1` seconds: with
   * the default three attempts, at most two sleeps and 3 s in all.
   */
  lemma {:induction false} BackoffTotal(n: nat)
    ensures Sum(Backoff(n)) == Pow2(n) - 1
  {
    if n > 0 {
      assert Backoff(n)[..n - 1] == Backoff(n - 1);
      BackoffTotal(n - 1);
    }
  }

  /** With the default three attempts the relay sleeps 1 s and then 2 s, as `2 ** attempt` gives. */
  lemma DefaultBackoff()
    ensures Backoff(DefaultMaxRetries - 1) == [1, 2]
  {
    assert Pow2(1) == 2;
  }
}
