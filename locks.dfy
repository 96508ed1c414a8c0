/**
 * The per-key lock the services acquire around a get-or-create
 * (`../lib/lock`, and the `v1.utils.lock` service). The model tracks which keys
 * are held; waiting for a holder, fairness and races are not modelled, so
 * `Acquire` is only called for a key nobody holds.
 */
module Locks {

  class Lock {
    /** The keys currently held. */
    var held: set<string>

    constructor ()
      ensures held == {}
    {
      held := {};
    }

    method Acquire(key: string)
      requires key !in held
      modifies this
      ensures held == old(held) + {key}
    {
      held := held + {key};
    }

    method Release(key: string)
      requires key in held
      modifies this
      ensures held == old(held) - {key}
    {
      held := held - {key};
    }
  }
}
