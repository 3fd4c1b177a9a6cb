/** The registry behind `get_session_lock`: one lock per session id, created on first use
    and never replaced. */
module SessionLocks {

  /** An asyncio lock; its state is the `owner` and `queue` of the Memorize model. */
  class Lock {
    constructor () {}
  }

  class LockRegistry {
    var locks: map<string, Lock>

    /** Different sessions never share a lock. */
    ghost predicate Valid()
      reads this
    {
      forall s, t :: s in locks && t in locks && s != t ==> locks[s] != locks[t]
    }

    constructor ()
      ensures Valid() && locks == map[]
    {
      locks := map[];
    }

    /** The same session always gets the lock it got first; other entries stay. */
    method GetSessionLock(session: string) returns (lock: Lock)
      requires Valid()
      modifies this
      ensures Valid()
      ensures session in locks && locks[session] == lock
      ensures session in old(locks) ==> lock == old(locks)[session] && locks == old(locks)
      ensures session !in old(locks) ==> (forall s :: s in old(locks) ==> lock != old(locks)[s])
      ensures locks.Keys == old(locks).Keys + {session}
      ensures forall s :: s in old(locks) ==> locks[s] == old(locks)[s]
    {
      var created := new Lock();
      if session !in locks {
        locks := locks[session := created];
      }
      lock := locks[session];
    }
  }
}
