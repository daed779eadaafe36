/**
 * The bounded retry wrappers shared by the BLE connectors
 * (`_retry_operation`) and the classic Bluetooth tester.
 *
 * The wrapped operation is an oracle: `outcomes[k]` is what attempt `k + 1`
 * produced.  Sleeping is not modelled as time: the method returns the list
 * of waits (in seconds) it would have slept, in order.
 */
module Retry {
  import opened Base

  /**
   * One call of the wrapped operation: a value that counts as success
   * (anything but `False` or `None`), `False`/`None`, or an exception.
   */
  datatype Attempt<T> = Ok(value: T) | NoResult | Raised

  function Pow2(n: nat): (p: nat)
    ensures p >= 1
  {
    if n == 0 then 1 else 2 * Pow2(n - 1)
  }

  /** `min(2 ** attempt, 30)`. */
  function Backoff(attempt: nat): (w: nat)
    ensures w <= 30
  {
    if Pow2(attempt) < 30 then Pow2(attempt) else 30
  }

  /** The waits slept after the first `n` attempts, one per attempt. */
  function Waits(n: nat): (ws: seq<nat>)
    ensures |ws| == n
    ensures forall i :: 0 <= i < n ==> ws[i] == Backoff(i + 1)
  {
    seq(n, i requires 0 <= i < n => Backoff(i + 1))
  }

  /** Index of the first successful attempt, or `|outs|` when none succeeded. */
  function FirstOk<T>(outs: seq<Attempt<T>>): (k: nat)
    ensures k <= |outs|
    ensures k < |outs| ==> outs[k].Ok?
    ensures forall j :: 0 <= j < k ==> !outs[j].Ok?
  {
    if outs == [] || outs[0].Ok? then 0 else 1 + FirstOk(outs[1..])
  }

  /** What the wrapper reports for the given attempts: the first success, or `None`. */
  function RetryResult<T>(outs: seq<Attempt<T>>): Option<T>
  {
    var k := FirstOk(outs);
    if k < |outs| then Some(outs[k].value) else None
  }

  /**
   * `_retry_operation`: at most `max_retries` attempts (the keyword
   * override when one is given, the instance's default otherwise), stopping
   * at the first success; failures and exceptions alike are followed by a
   * wait of `min(2 ** attempt, 30)` unless it was the last attempt.
   */
  method RetryOperation<T>(outcomes: seq<Attempt<T>>, maxRetriesOverride: Option<nat>, defaultRetries: nat)
    returns (r: Option<T>, waits: seq<nat>, attempts: nat)
    requires (if maxRetriesOverride.Some? then maxRetriesOverride.value else defaultRetries) <= |outcomes|
    ensures var n := if maxRetriesOverride.Some? then maxRetriesOverride.value else defaultRetries;
      && r == RetryResult(outcomes[..n])
      && attempts == (if r.Some? then FirstOk(outcomes[..n]) + 1 else n)
      && waits == Waits(if attempts == 0 then 0 else attempts - 1)
  {
    var maxRetries := if maxRetriesOverride.Some? then maxRetriesOverride.value else defaultRetries;
    ghost var outs := outcomes[..maxRetries];
    r := None;
    waits := [];
    attempts := 0;
    var attempt := 1;
    while attempt <= maxRetries
      invariant 1 <= attempt <= maxRetries + 1
      invariant attempts == attempt - 1
      invariant forall j :: 0 <= j < attempts ==> !outs[j].Ok?
      invariant attempt <= maxRetries ==> waits == Waits(attempts)
      invariant attempt > maxRetries ==> waits == Waits(if attempts == 0 then 0 else attempts - 1)
    {
      attempts := attempt;
      var result := outcomes[attempt - 1];
      if result.Ok? {
        assert FirstOk(outs) == attempt - 1 by {
          FirstOkAt(outs, attempt - 1);
        }
        r := Some(result.value);
        return;
      }
      if attempt < maxRetries {
        waits := waits + [Backoff(attempt)];
      }
      attempt := attempt + 1;
    }
    NoneWhenAllFail(outs);
  }

  lemma {:induction false} FirstOkAt<T>(outs: seq<Attempt<T>>, k: nat)
    requires k < |outs| && outs[k].Ok?
    requires forall j :: 0 <= j < k ==> !outs[j].Ok?
    ensures FirstOk(outs) == k
    decreases k
  {
    if k > 0 {
      FirstOkAt(outs[1..], k - 1);
    }
  }

  lemma NoneWhenAllFail<T>(outs: seq<Attempt<T>>)
    requires forall j :: 0 <= j < |outs| ==> !outs[j].Ok?
    ensures RetryResult(outs) == None
  {
  }

  /** The wrapper reports `None` exactly when no attempt within the bound succeeded. */
  lemma RetryNoneIff<T>(outs: seq<Attempt<T>>)
    ensures RetryResult(outs).None? <==> forall j :: 0 <= j < |outs| ==> !outs[j].Ok?
  {
  }

  /** A reported value is the value of an attempt that succeeded, and every earlier attempt failed. */
  lemma RetryResultWitness<T>(outs: seq<Attempt<T>>) returns (k: nat)
    requires RetryResult(outs).Some?
    ensures k < |outs| && outs[k] == Ok(RetryResult(outs).value)
    ensures forall j :: 0 <= j < k ==> !outs[j].Ok?
  {
    k := FirstOk(outs);
  }

  /** Allowing more attempts never changes a success that came within fewer. */
  lemma {:induction false} RetryMoreAttempts<T>(outs: seq<Attempt<T>>, m: nat, n: nat)
    requires m <= n <= |outs|
    requires RetryResult(outs[..m]).Some?
    ensures RetryResult(outs[..n]) == RetryResult(outs[..m])
  {
    var k := FirstOk(outs[..m]);
    assert outs[..n][k] == outs[..m][k];
    assert forall j :: 0 <= j < k ==> outs[..n][j] == outs[..m][j];
    FirstOkAt(outs[..n], k);
  }

  lemma {:induction false} Pow2Grows(a: nat, b: nat)
    requires a <= b
    ensures Pow2(a) <= Pow2(b)
    decreases b
  {
    if a < b {
      Pow2Grows(a, b - 1);
    }
  }

  /** The backoff never shrinks from one attempt to the next and is capped at 30 s from the fifth attempt. */
  lemma BackoffShape(a: nat)
    ensures a >= 1 ==> 2 <= Backoff(a)
    ensures Backoff(a) <= Backoff(a + 1)
    ensures a >= 5 ==> Backoff(a) == 30
    ensures a <= 4 ==> Backoff(a) == Pow2(a)
  {
    Pow2Grows(a, a + 1);
    if a >= 1 {
      Pow2Grows(1, a);
    }
    if a >= 5 {
      Pow2Grows(5, a);
    } else {
      Pow2Grows(a, 4);
    }
  }

  /** The total time slept before giving up is at most 30 s per wait. */
  lemma {:induction false} WaitsTotal(n: nat)
    ensures Sum(Waits(n)) <= 30 * n
    decreases n
  {
    if n > 0 {
      WaitsTotal(n - 1);
      assert Waits(n) == Waits(n - 1) + [Backoff(n)];
      SumAppend(Waits(n - 1), Backoff(n));
    }
  }

  function Sum(ws: seq<nat>): nat
  {
    if ws == [] then 0 else ws[0] + Sum(ws[1..])
  }

  lemma {:induction false} SumAppend(ws: seq<nat>, w: nat)
    ensures Sum(ws + [w]) == Sum(ws) + w
    decreases |ws|
  {
    if ws != [] {
      assert (ws + [w])[1..] == ws[1..] + [w];
      SumAppend(ws[1..], w);
    }
  }

  /**
   * The classic Bluetooth tester's `_retry_operation`: a truthy result
   * stops with `True`, otherwise up to `max_retry` attempts with an uncapped
   * `2 ** attempt` wait between them and `False` at the end.  Exceptions are
   * not caught there; the operations it wraps return booleans.
   */
  method RetryTruthy(results: seq<bool>, maxRetryOverride: Option<nat>, defaultRetry: nat)
    returns (ok: bool, waits: seq<nat>, attempts: nat)
    requires (if maxRetryOverride.Some? then maxRetryOverride.value else defaultRetry) <= |results|
    ensures var n := if maxRetryOverride.Some? then maxRetryOverride.value else defaultRetry;
      && (ok <==> true in results[..n])
      && attempts <= n
      && (ok ==> attempts >= 1 && results[attempts - 1] && forall j :: 0 <= j < attempts - 1 ==> !results[j])
      && (!ok ==> attempts == n)
      && |waits| == (if attempts == 0 then 0 else attempts - 1)
      && forall i :: 0 <= i < |waits| ==> waits[i] == Pow2(i + 1)
  {
    var maxRetry := if maxRetryOverride.Some? then maxRetryOverride.value else defaultRetry;
    waits := [];
    attempts := 0;
    var attempt := 1;
    while attempt <= maxRetry
      invariant 1 <= attempt <= maxRetry + 1
      invariant attempts == attempt - 1
      invariant forall j :: 0 <= j < attempts ==> !results[j]
      invariant attempt <= maxRetry ==> |waits| == attempts
      invariant attempt > maxRetry ==> |waits| == (if attempts == 0 then 0 else attempts - 1)
      invariant forall i :: 0 <= i < |waits| ==> waits[i] == Pow2(i + 1)
    {
      attempts := attempt;
      if results[attempt - 1] {
        ok := true;
        return;
      }
      if attempt < maxRetry {
        waits := waits + [Pow2(attempt)];
      }
      attempt := attempt + 1;
    }
    ok := false;
  }
}
