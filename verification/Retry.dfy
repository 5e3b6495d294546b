/** The connection loop of the client's constructor. */
module Retry {

  /** What one attempt meets: whether it succeeds, and when in its backoff a shutdown is seen. */
  datatype Attempt = Attempt(succeeds: bool, polls: nat, shutdown: bool)

  datatype End = Connected | Exhausted | ShutDown | NeverTried

  const POLL_STEP: nat := 100

  /** The backoff rounded up to whole polls. */
  function RoundUp(backoff: nat): nat { (backoff + POLL_STEP - 1) / POLL_STEP * POLL_STEP }

  lemma RoundUpBounds(backoff: nat)
    ensures backoff <= RoundUp(backoff) < backoff + 100
    ensures RoundUp(backoff) % 100 == 0
  {
  }

  /** How long the client sleeps after a failed attempt: until the backoff has passed or a
      shutdown is seen before one of the polls. */
  function SleptAfter(a: Attempt, backoff: nat): nat {
    if a.shutdown && a.polls * POLL_STEP < backoff then a.polls * POLL_STEP else RoundUp(backoff)
  }

  /**
   Sleeps through the backoff in steps of 100 ms: all of it, rounded up, unless a shutdown is seen
   before one of its polls; then up to that poll and no longer.
   */
  method Backoff(backoff: nat, a: Attempt) returns (waited: nat)
    ensures waited == SleptAfter(a, backoff)
    ensures waited % 100 == 0 && waited < backoff + 100
    ensures if a.shutdown && 100 * a.polls < backoff then waited == 100 * a.polls else waited >= backoff
  {
    waited := 0;
    var polls := 0;
    while waited < backoff && !(a.shutdown && polls >= a.polls)
      invariant waited == polls * POLL_STEP
      invariant waited == 0 || waited < backoff + POLL_STEP
      invariant a.shutdown ==> polls <= a.polls
      decreases backoff + POLL_STEP - waited
    {
      waited := waited + POLL_STEP;
      polls := polls + 1;
    }
    RoundUpBounds(backoff);
    if waited >= backoff {
      UniqueMultiple(polls, backoff);
    }
  }

  /** A multiple of 100 in [backoff, backoff + 100) is the backoff rounded up. */
  lemma UniqueMultiple(polls: nat, backoff: nat)
    requires backoff <= polls * POLL_STEP < backoff + POLL_STEP
    ensures polls * POLL_STEP == RoundUp(backoff)
  {
  }

  /** The first attempt to end the loop is the k-th: the ones before it failed and saw no shutdown. */
  ghost predicate ReachesAttempt(attempts: nat -> Attempt, k: nat) {
    forall j :: 1 <= j < k ==> !attempts(j).succeeds && !attempts(j).shutdown
  }

  /**
   The loop. It goes on to the next attempt exactly when one failed, saw no shutdown in its backoff
   and was not the last; it ends connected exactly when some attempt is reached and succeeds, and
   that is the last one made; it sleeps the rounded backoff after every attempt but the last; and it
   leaves `rtp` with a value exactly when it is connected. It is left normally with no value if and
   only if max_retries is 0, which the configuration rules out.
   */
  method Connect(attempts: nat -> Attempt, maxRetries: nat, backoff: nat)
    returns (end: End, made: nat, slept: nat, rtp: bool)
    ensures made <= maxRetries && ReachesAttempt(attempts, made)
    ensures end.Connected? <==>
      exists k :: 1 <= k <= maxRetries && attempts(k).succeeds && ReachesAttempt(attempts, k)
    ensures forall k :: 1 <= k <= maxRetries && attempts(k).succeeds && ReachesAttempt(attempts, k) ==> made == k
    ensures end.ShutDown? <==> 0 < made < maxRetries && !attempts(made).succeeds && attempts(made).shutdown
    ensures end.Exhausted? <==> made == maxRetries > 0 && !attempts(made).succeeds
    ensures end.NeverTried? <==> maxRetries == 0
    ensures rtp <==> end.Connected?
    ensures maxRetries > 0 ==>
      slept == (made - 1) * RoundUp(backoff) + (if end.ShutDown? then SleptAfter(attempts(made), backoff) else 0)
    ensures maxRetries > 0 ==> slept <= (maxRetries - 1) * RoundUp(backoff)
  {
    made, slept, rtp := 0, 0, false;
    while made < maxRetries
      invariant !rtp && ((maxRetries == 0 && made == 0) || made < maxRetries)
      invariant slept == made * RoundUp(backoff)
      invariant ReachesAttempt(attempts, made + 1)
      decreases maxRetries - made
    {
      MoreIsMore(made, maxRetries - 1, RoundUp(backoff));
      made := made + 1;
      rtp := attempts(made).succeeds;
      if rtp {
        return Connected, made, slept, rtp;
      }
      if made == maxRetries {
        return Exhausted, made, slept, rtp;
      }
      var waited := Backoff(backoff, attempts(made));
      slept := slept + waited;
      MoreIsMore(made, maxRetries - 1, RoundUp(backoff));
      OneMore(made - 1, RoundUp(backoff));
      if attempts(made).shutdown {
        return ShutDown, made, slept, rtp;
      }
    }
    end := NeverTried;
  }

  lemma OneMore(a: nat, x: nat)
    ensures (a + 1) * x == a * x + x
  {
  }

  lemma MoreIsMore(a: nat, b: nat, x: nat)
    requires a <= b
    ensures a * x <= b * x
  {
  }
}
