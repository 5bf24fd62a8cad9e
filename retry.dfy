/** The GET retry of the spawned worker in `crawl_absurdly_concurrent`
    (crawler-proto/src/main.rs): a failed request is retried while few
    attempts have been made and other actors are running; otherwise its
    error becomes the worker's error. */
module Retry {
  import opened Base

  /** Retry after the `tryGetCount`-th failed attempt, seeing `actors`
      concurrently running requests. */
  predicate ShouldRetry(tryGetCount: nat, actors: nat)
  {
    tryGetCount <= 8 && actors >= 2
  }

  /** The attempt at which the loop stops when it has reached attempt `i`:
      the first one that succeeds or that is not retried. */
  function StopAt<T>(get: nat -> Result<T>, actors: nat -> nat, i: nat): (k: nat)
    requires 1 <= i <= 9
    ensures i <= k <= 9
    decreases 9 - i
  {
    if get(i).Ok? || !ShouldRetry(i, actors(i)) then i else StopAt(get, actors, i + 1)
  }

  /** The request loop. `get(i)` is the outcome of the `i`-th attempt and
      `actors(i)` the actor count read after it fails; the back-off sleep
      between attempts is not modelled. */
  method GetWithRetry<T>(get: nat -> Result<T>, actors: nat -> nat) returns (r: Result<T>, attempts: nat)
    ensures attempts == StopAt(get, actors, 1) && r == get(attempts)
  {
    var tryGetCount: nat := 0;
    while true
      invariant tryGetCount <= 8
      invariant StopAt(get, actors, 1) == StopAt(get, actors, tryGetCount + 1)
      decreases 8 - tryGetCount
    {
      tryGetCount := tryGetCount + 1;
      match get(tryGetCount)
      case Ok(_) =>
        return get(tryGetCount), tryGetCount;
      case Err(_) =>
        var tooMuch := actors(tryGetCount);
        if !(tryGetCount <= 8 && tooMuch >= 2) {
          return get(tryGetCount), tryGetCount;
        }
    }
  }

  /** The loop stops at the first attempt that succeeds or is not retried:
      every earlier attempt failed and was retried. */
  lemma {:induction false} StopAtIsFirstStop<T>(get: nat -> Result<T>, actors: nat -> nat, i: nat)
    requires 1 <= i <= 9
    ensures var k := StopAt(get, actors, i);
      (get(k).Ok? || !ShouldRetry(k, actors(k))) &&
      forall j :: i <= j < k ==> get(j).Err? && ShouldRetry(j, actors(j))
    decreases 9 - i
  {
    if get(i).Err? && ShouldRetry(i, actors(i)) {
      StopAtIsFirstStop(get, actors, i + 1);
    }
  }

  /** A request that keeps failing while other actors run is sent nine times
      before its error is kept. */
  lemma {:induction false} PersistentFailure<T>(get: nat -> Result<T>, actors: nat -> nat, i: nat)
    requires 1 <= i <= 9
    requires forall j :: 1 <= j <= 9 ==> get(j).Err? && actors(j) >= 2
    ensures StopAt(get, actors, i) == 9
    decreases 9 - i
  {
    if i < 9 {
      PersistentFailure(get, actors, i + 1);
    }
  }

  /** With fewer than two actors running, a failed first attempt is not
      retried. */
  lemma NoRetryWhenAlone<T>(get: nat -> Result<T>, actors: nat -> nat)
    requires actors(1) < 2
    ensures StopAt(get, actors, 1) == 1
  {
  }
}
