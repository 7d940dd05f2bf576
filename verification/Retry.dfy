/**
 The two retry loops: the retry_on_error decorator (retry.py) and SyncExecutor._get_connector_with_retry.
 Which attempts succeed is an oracle, one flag an attempt; an attempt beyond the flags fails.
 Sleeping is summed up instead of done.
 */
module Retry {
  datatype Outcome = Returned | Raised | ReturnedNone

  predicate Works(attempts: seq<bool>, i: nat) { i < |attempts| && attempts[i] }

  /** The first of n attempts that works, or n; an attempt that is not in the list fails. */
  function FirstSuccess(attempts: seq<bool>, n: nat): (i: nat)
    ensures i <= n && forall j: nat :: j < i && j < |attempts| ==> !attempts[j]
    ensures i < n ==> i < |attempts| && attempts[i]
    ensures i <= n && forall j: nat :: j < i ==> !Works(attempts, j)
    ensures i < n ==> Works(attempts, i)
  {
    var i := FirstFrom(attempts, 0, n);
    assert forall j: nat :: j < i && j < |attempts| ==> attempts[j] == Works(attempts, j);
    i
  }

  function FirstFrom(attempts: seq<bool>, k: nat, n: nat): (i: nat)
    requires k <= n
    ensures k <= i <= n && forall j: nat :: k <= j < i ==> !Works(attempts, j)
    ensures i < n ==> Works(attempts, i)
    decreases n - k
  {
    if k == n || Works(attempts, k) then k else FirstFrom(attempts, k + 1, n)
  }

  /** Some attempt within the limit works. */
  predicate Succeeds(attempts: seq<bool>, n: nat) { FirstSuccess(attempts, n) < n }

  /** The first three attempts fail. */
  predicate ThreeFail(attempts: seq<bool>) { forall j :: 0 <= j < 3 && j < |attempts| ==> !attempts[j] }

  lemma SucceedsUnlessThreeFail(attempts: seq<bool>)
    ensures Succeeds(attempts, 3) <==> !ThreeFail(attempts)
  {
  }

  function Power(base: real, k: nat): real { if k == 0 then 1.0 else base * Power(base, k - 1) }

  /** backoff^0 + ... + backoff^(k-1) */
  function PowerSum(base: real, k: nat): real { if k == 0 then 0.0 else PowerSum(base, k - 1) + Power(base, k - 1) }

  lemma {:induction false} PowerSumClosed(base: real, k: nat)
    ensures PowerSum(base, k) * (base - 1.0) == Power(base, k) - 1.0
  {
    if k > 0 { PowerSumClosed(base, k - 1); }
  }

  /**
   The wrapper tries until the first success, at most maxRetries times; it raises when all of those fail,
   and between two attempts it sleeps delay times a growing power of backoff.
   With a limit below one it does not try at all and returns None.
   */
  method RetryOnError(attempts: seq<bool>, maxRetries: int, delay: real, backoff: real)
    returns (outcome: Outcome, tried: nat, slept: real)
    ensures maxRetries <= 0 ==> outcome == ReturnedNone && tried == 0 && slept == 0.0
    ensures maxRetries > 0 ==>
              var first := FirstSuccess(attempts, maxRetries);
              outcome == (if first < maxRetries then Returned else Raised) &&
              tried == (if first < maxRetries then first + 1 else maxRetries) &&
              slept == delay * PowerSum(backoff, tried - 1)
  {
    var retries := 0;
    var currentDelay := delay;
    tried, slept := 0, 0.0;
    while retries < maxRetries
      invariant tried == retries
      invariant maxRetries <= 0 ==> retries == 0
      invariant maxRetries > 0 ==> retries < maxRetries
      invariant forall j: nat :: j < retries ==> !Works(attempts, j)
      invariant currentDelay == delay * Power(backoff, retries)
      invariant slept == delay * PowerSum(backoff, retries)
    {
      tried := tried + 1;
      if Works(attempts, retries) {
        return Returned, tried, slept;
      }
      retries := retries + 1;
      if retries >= maxRetries {
        return Raised, tried, slept;
      }
      slept := slept + currentDelay;
      currentDelay := currentDelay * backoff;
    }
    outcome := ReturnedNone;
  }

  function TwoTo(k: nat): nat { if k == 0 then 1 else 2 * TwoTo(k - 1) }

  lemma {:induction false} TwoToIsPower(k: nat)
    ensures TwoTo(k) as real == Power(2.0, k)
  {
    if k > 0 { TwoToIsPower(k - 1); }
  }

  /** The seconds that a batch call pauses: none, one, or one and two, by the attempt that works or gives up. */
  function PauseOf(attempts: seq<bool>): real {
    if |attempts| > 0 && attempts[0] then 0.0
    else if |attempts| > 1 && attempts[1] then 1.0
    else 3.0
  }

  lemma PausesDouble()
    ensures 1.0 * PowerSum(2.0, 0) == 0.0 && 1.0 * PowerSum(2.0, 1) == 1.0 && 1.0 * PowerSum(2.0, 2) == 3.0
  {
    assert PowerSum(2.0, 2) == PowerSum(2.0, 1) + Power(2.0, 1);
    assert PowerSum(2.0, 1) == PowerSum(2.0, 0) + Power(2.0, 0);
  }

  /** The connector is obtained by the first attempt that works; giving up has cost 2^(n-1) - 1 seconds of waiting. */
  method GetConnectorWithRetry(attempts: seq<bool>, maxRetries: nat)
    returns (outcome: Outcome, waited: nat)
    ensures maxRetries == 0 ==> outcome == ReturnedNone && waited == 0
    ensures maxRetries > 0 ==>
              var first := FirstSuccess(attempts, maxRetries);
              outcome == (if first < maxRetries then Returned else Raised) &&
              waited == (if first < maxRetries then TwoTo(first) else TwoTo(maxRetries - 1)) - 1
  {
    waited := 0;
    for attempt := 0 to maxRetries
      invariant forall j: nat :: j < attempt ==> !Works(attempts, j)
      invariant attempt == 0 || attempt < maxRetries
      invariant waited == TwoTo(attempt) - 1
    {
      if Works(attempts, attempt) {
        return Returned, waited;
      }
      if attempt < maxRetries - 1 {
        waited := waited + TwoTo(attempt);
      } else {
        return Raised, waited;
      }
    }
    outcome := ReturnedNone;
  }
}
