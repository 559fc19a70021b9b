/** The counting semaphore (semaphore/semaphore.go): a channel of `limit` slots. */
module Semaphores {
  import opened Options

  /** No limit stands for the nil semaphore, which is unbounded and holds nothing. */
  predicate CanAcquire(limit: Option<nat>, used: nat) {
    limit.None? || used < limit.value
  }

  function AfterAcquire(limit: Option<nat>, used: nat): nat {
    if limit.Some? && used < limit.value then used + 1 else used
  }

  function AfterRelease(limit: Option<nat>, used: nat): nat {
    if limit.Some? && used > 0 then used - 1 else used
  }

  /** A release undoes a successful acquire, and nothing else changes what can be acquired. */
  lemma ReleaseUndoesAcquire(limit: Option<nat>, used: nat)
    requires if limit.Some? then used <= limit.value else used == 0
    ensures CanAcquire(limit, used) <==> limit.None? || used != limit.value
    ensures CanAcquire(limit, used) ==> AfterRelease(limit, AfterAcquire(limit, used)) == used
    ensures CanAcquire(limit, used) && limit.Some? ==> AfterAcquire(limit, used) == used + 1
    ensures !CanAcquire(limit, used) ==> AfterAcquire(limit, used) == used
  {
  }

  class Semaphore {
    const limit: Option<nat>
    var used: nat

    ghost predicate Valid()
      reads this
    {
      if limit.Some? then used <= limit.value else used == 0
    }

    constructor (n: nat)
      ensures Valid() && used == 0 && limit == Some(n)
    {
      limit := Some(n);
      used := 0;
    }

    /** The nil semaphore. */
    constructor Unlimited()
      ensures Valid() && used == 0 && limit == None
    {
      limit := None;
      used := 0;
    }

    method Acquire() returns (ok: bool)
      requires Valid()
      modifies this
      ensures Valid()
      ensures ok == CanAcquire(limit, old(used)) == (limit.None? || old(used) < limit.value)
      ensures used == AfterAcquire(limit, old(used)) == (if ok && limit.Some? then old(used) + 1 else old(used))
    {
      if limit.None? {
        return true;
      }
      if used < limit.value {
        used := used + 1;
        return true;
      }
      return false;
    }

    method Release()
      requires Valid()
      modifies this
      ensures Valid()
      ensures used == AfterRelease(limit, old(used))
      ensures used == (if limit.Some? && old(used) > 0 then old(used) - 1 else old(used))
    {
      if limit.None? {
        return;
      }
      if used > 0 {
        used := used - 1;
      }
    }
  }
}
