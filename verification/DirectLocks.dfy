/** The per-Cache table that keeps one ownership lifecycle per key. */
module DirectLocks {
  import opened Bytes

  type Key = bytes

  datatype Status = Acquiring | Held | Releasing

  type Table = map<Key, Status>

  function StatusOf(t: Table, key: Key): Option<Status> {
    if key in t then Some(t[key]) else None
  }

  predicate CanBeginAcquire(t: Table, key: Key) {
    key !in t
  }

  predicate CanBeginRelease(t: Table, key: Key) {
    key in t && t[key] == Held
  }

  function FinishedAcquire(t: Table, key: Key, acquired: bool): Table {
    if acquired then t[key := Held] else t - {key}
  }

  function FinishedRelease(t: Table, key: Key, succeeded: bool): Table {
    if succeeded then t - {key} else t[key := Held]
  }

  /** The cycle none, acquiring, held, releasing, none, with the two ways back: a
      failed acquisition to none and a failed release to held. */
  predicate CycleEdge(a: Option<Status>, b: Option<Status>) {
    || a == b
    || (a == None && b == Some(Acquiring))
    || (a == Some(Acquiring) && (b == Some(Held) || b == None))
    || (a == Some(Held) && b == Some(Releasing))
    || (a == Some(Releasing) && (b == None || b == Some(Held)))
  }

  class CacheDirectLocks {
    var locks: Table

    constructor ()
      ensures locks == map[]
    {
      locks := map[];
    }

    method BeginAcquire(key: Key) returns (ok: bool)
      modifies this
      ensures ok <==> CanBeginAcquire(old(locks), key)
      ensures locks == if ok then old(locks)[key := Acquiring] else old(locks)
    {
      if key in locks {
        return false;
      }
      locks := locks[key := Acquiring];
      return true;
    }

    method FinishAcquire(key: Key, acquired: bool)
      modifies this
      ensures locks == FinishedAcquire(old(locks), key, acquired)
    {
      if acquired {
        locks := locks[key := Held];
        return;
      }
      locks := locks - {key};
    }

    method BeginRelease(key: Key) returns (ok: bool)
      modifies this
      ensures ok <==> CanBeginRelease(old(locks), key)
      ensures locks == if ok then old(locks)[key := Releasing] else old(locks)
    {
      if key !in locks || locks[key] != Held {
        return false;
      }
      locks := locks[key := Releasing];
      return true;
    }

    method FinishRelease(key: Key, succeeded: bool)
      modifies this
      ensures locks == FinishedRelease(old(locks), key, succeeded)
    {
      if succeeded {
        locks := locks - {key};
        return;
      }
      locks := locks[key := Held];
    }
  }
}
