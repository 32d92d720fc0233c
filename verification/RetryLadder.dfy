/** The bounded, fully jittered retry ladder every database write runs through (db.ts, `withRetry`). */
module RetryLadder {
  import opened Prelude

  const MAX_ATTEMPTS: nat := 5
  const BACKOFF_MS: nat := 25

  /** One run of the body: a value, or an error carrying a SQLSTATE (None: not a database error). */
  datatype Outcome<+T> = Returned(value: T) | Threw(code: Option<string>)

  /** The two codes of an attempt that lost a race; any other error is final. */
  predicate Raced<T>(o: Outcome<T>) {
    o == Threw(Some("40001")) || o == Threw(Some("40P01"))
  }

  function Pow2(n: nat): nat {
    if n == 0 then 1 else 2 * Pow2(n - 1)
  }

  ghost predicate Draws(random: nat -> real) {
    forall i :: 0.0 <= random(i) < 1.0
  }

  /** The wait after a given attempt, for one draw in [0, 1). */
  function BackoffMs(draw: real, attempt: nat): int {
    (draw * (BACKOFF_MS * Pow2(attempt)) as real).Floor
  }

  /** All the waiting done before the given attempt starts. */
  function Slept(random: nat -> real, attempt: nat): int {
    if attempt <= 1 then 0 else Slept(random, attempt - 1) + BackoffMs(random(attempt - 1), attempt - 1)
  }

  /**
   * `body(k)` is what the k-th run of the wrapped statement does. The ladder answers the first
   * outcome that is not a race, or the fifth outcome whatever it is.
   */
  method WithRetry<T>(body: nat -> Outcome<T>, random: nat -> real)
    returns (out: Outcome<T>, attempts: nat, sleptMs: int)
    requires Draws(random)
    ensures 1 <= attempts <= MAX_ATTEMPTS
    ensures out == body(attempts)
    ensures forall k :: 1 <= k < attempts ==> body(k).Threw? && body(k).code in {Some("40001"), Some("40P01")}
    ensures out.Threw? && out.code in {Some("40001"), Some("40P01")} ==> attempts == 5
    ensures sleptMs == Slept(random, attempts)
    ensures 0 <= sleptMs < 750
  {
    attempts := 1;
    sleptMs := 0;
    while true
      invariant 1 <= attempts <= MAX_ATTEMPTS
      invariant forall k :: 1 <= k < attempts ==> Raced(body(k))
      invariant sleptMs == Slept(random, attempts)
      decreases MAX_ATTEMPTS - attempts
    {
      out := body(attempts);
      if !Raced(out) || attempts >= MAX_ATTEMPTS {
        SleepBudget(random, attempts);
        return;
      }
      sleptMs := sleptMs + BackoffMs(random(attempts), attempts);
      attempts := attempts + 1;
    }
  }

  /** One wait is strictly below its ceiling, because the draw is below one. */
  lemma WaitBelowCeiling(draw: real, attempt: nat)
    requires 0.0 <= draw < 1.0 && 1 <= attempt < MAX_ATTEMPTS
    ensures 0 <= BackoffMs(draw, attempt) <= BACKOFF_MS * Pow2(attempt) - 1
  {
    assert Pow2(1) == 2 && Pow2(2) == 4 && Pow2(3) == 8 && Pow2(4) == 16;
    assert attempt == 1 || attempt == 2 || attempt == 3 || attempt == 4;
  }

  /** Whatever the draws are, the waits of a whole ladder stay at or below 746 ms, under the documented 750. */
  lemma SleepBudget(random: nat -> real, attempt: nat)
    requires Draws(random) && 1 <= attempt <= MAX_ATTEMPTS
    ensures 0 <= Slept(random, attempt) <= 746
  {
    forall k: nat | 1 <= k < attempt
      ensures 0 <= BackoffMs(random(k), k) <= BACKOFF_MS * Pow2(k) - 1
    {
      WaitBelowCeiling(random(k), k);
    }
    assert Pow2(1) == 2 && Pow2(2) == 4 && Pow2(3) == 8 && Pow2(4) == 16;
    SleepPrefix(random, attempt);
  }

  lemma SleepPrefix(random: nat -> real, attempt: nat)
    requires 1 <= attempt <= MAX_ATTEMPTS
    requires forall k: nat :: 1 <= k < attempt ==> 0 <= BackoffMs(random(k), k) <= BACKOFF_MS * Pow2(k) - 1
    ensures 0 <= Slept(random, attempt) <= BACKOFF_MS * (Pow2(attempt) - 2) - (attempt - 1)
    decreases attempt
  {
    if attempt > 1 {
      SleepPrefix(random, attempt - 1);
      assert Pow2(attempt) == 2 * Pow2(attempt - 1);
      assert 0 <= BackoffMs(random(attempt - 1), attempt - 1) <= BACKOFF_MS * Pow2(attempt - 1) - 1;
    }
  }

  /** The 746 ms bound is reached, so no smaller budget is true of the ladder. */
  lemma WorstLadder()
    ensures Draws((i: nat) => 0.999) && Slept((i: nat) => 0.999, MAX_ATTEMPTS) == 746
  {
    var f := (i: nat) => 0.999;
    assert BackoffMs(f(1), 1) == 49;
    assert BackoffMs(f(2), 2) == 99;
    assert Pow2(2) == 4 && Pow2(3) == 8;
    assert BackoffMs(f(3), 3) == 199;
    assert Pow2(4) == 16;
    assert BackoffMs(f(4), 4) == 399;
    assert Slept(f, 1) == 0;
    assert Slept(f, 2) == 49;
    assert Slept(f, 3) == 148;
    assert Slept(f, 4) == 347;
  }
}
