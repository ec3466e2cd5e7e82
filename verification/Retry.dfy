/** Bounded exponential backoff, shared by every retry loop of the client.
    Durations are natural numbers of one time unit. */
module Retry {
  import opened Bytes
  import opened Numbers

  function Pow2(n: nat): nat {
    if n == 0 then 1 else 2 * Pow2(n - 1)
  }

  datatype Policy = Policy(maxRetries: nat, initial: nat, max: nat)

  /** The wait before retry number `n + 1`: the initial one uncapped, later ones
      doubled each time and capped. */
  function WaitAfter(n: nat, p: Policy): nat {
    if n == 0 then p.initial else Min(p.initial * Pow2(n), p.max)
  }

  /** The doubling is of the capped value, yet the cap never loses a doubling. */
  lemma DoubleThenCap(n: nat, p: Policy)
    ensures Min(2 * WaitAfter(n, p), p.max) == WaitAfter(n + 1, p)
  {
    assert p.initial * Pow2(n + 1) == 2 * (p.initial * Pow2(n));
  }

  /** Every wait is the capped power of two exactly when the policy starts below
      its cap. */
  lemma CappedIff(p: Policy)
    ensures (forall n :: WaitAfter(n, p) == Min(p.initial * Pow2(n), p.max)) <==> p.initial <= p.max
  {
    if forall n :: WaitAfter(n, p) == Min(p.initial * Pow2(n), p.max) {
      assert WaitAfter(0, p) == Min(p.initial * Pow2(0), p.max);
    }
  }

  class RetryState {
    const policy: Policy
    var attempts: nat
    var currentBackoff: nat

    ghost predicate Valid()
      reads this
    {
      attempts <= policy.maxRetries && currentBackoff == WaitAfter(attempts, policy)
    }

    constructor (policy: Policy)
      ensures Valid() && attempts == 0 && this.policy == policy
    {
      this.policy := policy;
      attempts := 0;
      currentBackoff := policy.initial;
    }

    /** Grants the next wait while fewer than `maxRetries` were granted since the
        last reset. */
    method NextAttempt() returns (wait: Option<nat>)
      requires Valid()
      modifies this
      ensures Valid()
      ensures wait == if old(attempts) < policy.maxRetries then Some(WaitAfter(old(attempts), policy)) else None
      ensures attempts == if wait.Some? then old(attempts) + 1 else old(attempts)
    {
      if attempts >= policy.maxRetries {
        return None;
      }
      attempts := attempts + 1;
      wait := Some(currentBackoff);
      DoubleThenCap(attempts - 1, policy);
      currentBackoff := Min(currentBackoff * 2, policy.max);
    }

    method Reset()
      requires Valid()
      modifies this
      ensures Valid() && attempts == 0
    {
      attempts := 0;
      currentBackoff := policy.initial;
    }
  }
}
