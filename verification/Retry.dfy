/** Retrying a sync pass for a limited time. */
module Retry {
  import opened Durations

  /** How one attempt went and how long it took, and how much longer than asked the wait behind it
      lasted. The caller may give up during either. */
  datatype Attempt = Attempt(ok: bool, took: nat, cancelled: bool, overslept: nat, cancelledAsleep: bool)

  /** When a wait began, and how long it was meant to be. */
  datatype Sleep = Sleep(began: int, length: int)

  datatype Outcome = Succeeded | GaveUp | Cancelled

  /** The least time that passes before the attempt after this many waits. */
  function Earliest(sleeps: nat): int {
    if sleeps == 0 then 0 else Earliest(sleeps - 1) + NthSleep(sleeps - 1)
  }

  lemma {:induction false} EarliestMeans(sleeps: nat)
    ensures sleeps >= 4 ==> Earliest(sleeps) == (sleeps - 3) * MAX_BACKOFF
    ensures sleeps < 4 ==> Earliest(sleeps) == [0, 1, 3, 7][sleeps] * SECOND
  {
    if sleeps > 0 { EarliestMeans(sleeps - 1); }
  }

  /** There is time for one attempt for every fifteen seconds, and five more, and no further one. */
  lemma AttemptsBounded(attempts: nat, window: int)
    requires attempts >= 2
    ensures window >= MAX_BACKOFF ==> (Earliest(attempts - 2) <= window <==> attempts <= window / MAX_BACKOFF + 5)
    ensures window < MAX_BACKOFF && Earliest(attempts - 2) <= window ==> 0 <= window && attempts <= 5
  {
    EarliestMeans(attempts - 2);
    if attempts >= 6 {
      assert (attempts - 5) * MAX_BACKOFF <= window <==> attempts - 5 <= window / MAX_BACKOFF;
    }
  }

  /** An attempt was made only if the one before it failed within the window. */
  lemma AttemptsLimited(attempts: nat, window: int)
    requires attempts >= 2 ==> window != 0 && Earliest(attempts - 2) <= window
    ensures window == 0 ==> attempts <= 1
    ensures window >= MAX_BACKOFF ==> attempts <= window / MAX_BACKOFF + 5
    ensures window < MAX_BACKOFF ==> attempts <= 5
  {
    if attempts >= 2 {
      AttemptsBounded(attempts, window);
    } else if window >= MAX_BACKOFF {
      assert window / MAX_BACKOFF >= 0;
    }
  }

  lemma NthSleepDoubles(n: nat)
    ensures Doubled(NthSleep(n)) == NthSleep(n + 1) && NthSleep(n) >= MIN_BACKOFF
  {
  }

  /** When attempt i begins, if the loop gets that far, and when it is over. */
  function Begins(env: nat -> Attempt, start: int, i: nat): int {
    if i == 0 then start
    else Begins(env, start, i - 1) + env(i - 1).took + NthSleep(i - 1) + env(i - 1).overslept
  }

  function Finished(env: nat -> Attempt, start: int, i: nat): int {
    Begins(env, start, i) + env(i).took
  }

  /** The loop goes on behind an attempt that failed, was not cancelled, and ended within the window, if
      the wait is not cancelled either. */
  predicate GoesOn(env: nat -> Attempt, start: int, window: int, i: nat) {
    && !env(i).ok && !env(i).cancelled && window != 0 && Finished(env, start, i) <= start + window
    && !env(i).cancelledAsleep
  }

  lemma {:induction false} BeginsLate(env: nat -> Attempt, start: int, i: nat)
    ensures Begins(env, start, i) >= start + Earliest(i)
  {
    if i > 0 { BeginsLate(env, start, i - 1); }
  }

  lemma AttemptsWithin(env: nat -> Attempt, start: int, window: int, attempts: nat)
    requires attempts >= 2 ==> GoesOn(env, start, window, attempts - 2)
    ensures window == 0 ==> attempts <= 1
    ensures window >= MAX_BACKOFF ==> attempts <= window / MAX_BACKOFF + 5
    ensures window < MAX_BACKOFF ==> attempts <= 5
  {
    if attempts >= 2 { BeginsLate(env, start, attempts - 2); }
    AttemptsLimited(attempts, window);
  }

  /** How it ended with attempt n, which is the first behind which the loop did not go on. */
  ghost predicate EndsWith(env: nat -> Attempt, start: int, window: int, outcome: Outcome, n: nat, sleeps: nat) {
    && !GoesOn(env, start, window, n)
    && (outcome.Succeeded? <==> env(n).ok)
    && (outcome.GaveUp? <==>
          !env(n).ok && !env(n).cancelled && (window == 0 || Finished(env, start, n) > start + window))
    && (outcome.Cancelled? <==>
          !env(n).ok && (env(n).cancelled
                         || (window != 0 && Finished(env, start, n) <= start + window && env(n).cancelledAsleep)))
    && sleeps == if outcome.Cancelled? && !env(n).cancelled then n + 1 else n
  }

  /** The environment decides about every attempt; that the loop ends does not depend on it. */
  method RunWithRetry(window: int, start: int, env: nat -> Attempt)
    returns (outcome: Outcome, attempts: nat, sleeps: seq<Sleep>, ended: int)
    ensures attempts >= 1 && (forall i: nat | i < attempts - 1 :: GoesOn(env, start, window, i))
    ensures EndsWith(env, start, window, outcome, attempts - 1, |sleeps|) && ended == Finished(env, start, attempts - 1)
    ensures forall i: nat {:trigger sleeps[i]} | i < |sleeps| ::
              sleeps[i] == Sleep(Finished(env, start, i), NthSleep(i)) && sleeps[i].began <= start + window
    ensures window == 0 ==> attempts == 1
    ensures window >= MAX_BACKOFF ==> attempts <= window / MAX_BACKOFF + 5
    ensures window < MAX_BACKOFF ==> attempts <= 5
  {
    var deadline := start + window;
    var now := start;
    var backoff := SECOND;
    attempts, sleeps := 0, [];
    while true
      invariant |sleeps| == attempts && backoff == NthSleep(attempts)
      invariant forall i: nat | i < attempts :: GoesOn(env, start, window, i)
      invariant now == Begins(env, start, attempts)
      invariant forall i: nat {:trigger sleeps[i]} | i < attempts ::
                  sleeps[i] == Sleep(Finished(env, start, i), NthSleep(i)) && sleeps[i].began <= deadline
      decreases if now <= deadline then deadline - now + 1 else 0, if attempts == 0 then 1 else 0
    {
      var attempt := env(attempts);
      now := now + attempt.took;
      attempts := attempts + 1;
      AttemptsWithin(env, start, window, attempts);
      NthSleepDoubles(attempts - 1);
      if attempt.ok { return Succeeded, attempts, sleeps, now; }
      if attempt.cancelled { return Cancelled, attempts, sleeps, now; }
      if window == 0 || now > deadline { return GaveUp, attempts, sleeps, now; }
      sleeps := sleeps + [Sleep(now, backoff)];
      if attempt.cancelledAsleep { return Cancelled, attempts, sleeps, now; }
      now := now + backoff + attempt.overslept;
      backoff := backoff * 2;
      if backoff > MAX_BACKOFF {
        backoff := MAX_BACKOFF;
      }
    }
  }
}
