/** The lock calls of Cache and LockHandle as a thread executes them. Backend errors, and
    what other threads leave in table and store while a call waits, are parameters. */
module CacheLocks {
  import opened Bytes
  import opened ExpiringMap
  import opened DirectLocks
  import MemoryStore

  const LOCK_PREFIX: bytes := [95, 95, 108, 111, 99, 107, 58]  // "__lock:"

  function LockKey(key: Key): bytes {
    LOCK_PREFIX + key
  }

  /** Lock keys are the caller's keys behind the seven bytes of "__lock:". */
  predicate IsLockKey(k: bytes) {
    |k| >= 7 && k[..7] == [95, 95, 108, 111, 99, 107, 58]
  }

  lemma LockKeysApart(key: Key, other: Key)
    ensures IsLockKey(LockKey(key)) && LockKey(key)[7..] == key
    ensures LockKey(key) == LockKey(other) ==> key == other
  {
    assert LockKey(key)[7..] == key && LockKey(other)[7..] == other;
  }

  /** `Failed` is the backend's error, `Stopped` the context's. */
  datatype Reply = Locked(ok: bool) | BadTtl | Failed | Stopped

  // ------------------------------------------------------ what the calls amount to

  /** Entries by lock key; `V` is what owner tokens are made of. */
  type Entries<V> = map<bytes, Item<V>>

  /** One attempt: it changes the entries only by winning. */
  function Tried<V>(m: Entries<V>, at: bytes, owner: V, ttl: int, now: int, errs: bool): (Entries<V>, Reply) {
    if ttl <= 0 then (m, BadTtl)
    else if errs then (m, Failed)
    else if Find(m, at, now) == None then (m[at := Item(owner, now + ttl)], Locked(true))
    else (m, Locked(false))
  }

  function Dropped<V(==)>(m: Entries<V>, at: bytes, owner: V, now: int, errs: bool): Entries<V> {
    if errs then m else RemoveIfOwner(m, at, owner, now)
  }

  /** What an attempt of a retry loop meets. */
  datatype Turn<V> = Turn(entries: Entries<V>, now: int, errs: bool)

  function Try<V>(turn: Turn<V>, at: bytes, owner: V, ttl: int): (Entries<V>, Reply) {
    Tried(turn.entries, at, owner, ttl, turn.now, turn.errs)
  }

  /** The first attempt that is not a plain no; the number of turns when there is none. */
  function Deciding<V>(turns: seq<Turn<V>>, at: bytes, owner: V, ttl: int): (i: nat)
    ensures i <= |turns|
    ensures i < |turns| ==> Try(turns[i], at, owner, ttl).1 != Locked(false)
    ensures forall j :: 0 <= j < i ==> Try(turns[j], at, owner, ttl).1 == Locked(false)
  {
    if turns == [] || Try(turns[0], at, owner, ttl).1 != Locked(false) then 0
    else
      var rest := Deciding(turns[1..], at, owner, ttl);
      assert forall j :: 0 < j <= rest && j < |turns| ==> turns[j] == turns[1..][j - 1];
      1 + rest
  }

  /** The loop's answer: that of the deciding attempt, or the context's error. */
  function LoopReply<V>(turns: seq<Turn<V>>, at: bytes, owner: V, ttl: int): Reply {
    var i := Deciding(turns, at, owner, ttl);
    if i < |turns| then Try(turns[i], at, owner, ttl).1 else Stopped
  }

  /** The entries the loop leaves. */
  function LoopEntries<V>(turns: seq<Turn<V>>, at: bytes, owner: V, ttl: int): Entries<V>
    requires turns != []
  {
    var i := Deciding(turns, at, owner, ttl);
    if i < |turns| then Try(turns[i], at, owner, ttl).0 else turns[|turns| - 1].entries
  }

  /** Every attempt so far was a plain no. */
  predicate Undecided<V>(turns: seq<Turn<V>>, at: bytes, owner: V, ttl: int) {
    Deciding(turns, at, owner, ttl) == |turns|
  }

  /** One more attempt of an undecided loop. */
  lemma NextTurn<V>(turns: seq<Turn<V>>, turn: Turn<V>, at: bytes, owner: V, ttl: int)
    requires Undecided(turns, at, owner, ttl)
    ensures var (m, r) := Try(turn, at, owner, ttl);
            && LoopReply(turns + [turn], at, owner, ttl) == (if r == Locked(false) then Stopped else r)
            && LoopEntries(turns + [turn], at, owner, ttl) == m
            && (r == Locked(false) ==> Undecided(turns + [turn], at, owner, ttl))
  {
    var all := turns + [turn];
    assert forall i :: 0 <= i < |turns| ==> all[i] == turns[i];
    LastDecides(all, at, owner, ttl);
  }

  /** Where every attempt before the last was a plain no, the last one says it all. */
  lemma LastDecides<V>(turns: seq<Turn<V>>, at: bytes, owner: V, ttl: int)
    requires turns != []
    requires forall i :: 0 <= i < |turns| - 1 ==> Try(turns[i], at, owner, ttl).1 == Locked(false)
    ensures var (m, r) := Try(turns[|turns| - 1], at, owner, ttl);
            && LoopReply(turns, at, owner, ttl) == (if r == Locked(false) then Stopped else r)
            && LoopEntries(turns, at, owner, ttl) == m
  {
  }

  /** The first table without the key; the number of tables when there is none. */
  function FirstWithout(tables: seq<Table>, key: Key): (i: nat)
    ensures i <= |tables|
    ensures i < |tables| ==> key !in tables[i]
    ensures forall j :: 0 <= j < i ==> key in tables[j]
  {
    if tables == [] || key !in tables[0] then 0
    else
      var rest := FirstWithout(tables[1..], key);
      assert forall j :: 0 < j <= rest && j < |tables| ==> tables[j] == tables[1..][j - 1];
      1 + rest
  }

  /** The lifecycle table and the entries. */
  datatype World<V> = World(table: Table, entries: Entries<V>)

  /** A won acquisition is held in the table and in the backend; any other leaves the
      world as it was. */
  function TryLocked<V>(w: World<V>, key: Key, at: bytes, owner: V, ttl: int, now: int, errs: bool): World<V> {
    var (m, r) := Tried(w.entries, at, owner, ttl, now, errs);
    if key !in w.table && r == Locked(true) then World(w.table[key := Held], m) else w
  }

  /** A release closes the lifecycle and removes the entry only while it is the owner's; a
      backend error puts the lifecycle back to held. */
  function Unlocked<V(==)>(w: World<V>, key: Key, at: bytes, owner: V, now: int, errs: bool): World<V> {
    if !CanBeginRelease(w.table, key) || errs then w
    else World(w.table - {key}, RemoveIfOwner(w.entries, at, owner, now))
  }

  /** The shared flag of a handle and its clones, and the entries. */
  datatype HandleWorld<V> = HandleWorld(held: bool, entries: Entries<V>)

  function HandleAcquired<V>(w: HandleWorld<V>, at: bytes, owner: V, ttl: int, now: int, errs: bool)
    : (HandleWorld<V>, Reply)
  {
    if w.held then (w, Locked(false))
    else
      var (m, r) := Tried(w.entries, at, owner, ttl, now, errs);
      (HandleWorld(r == Locked(true), m), r)
  }

  function HandleReleased<V(==)>(w: HandleWorld<V>, at: bytes, owner: V, now: int, errs: bool): HandleWorld<V> {
    if w.held then HandleWorld(errs, Dropped(w.entries, at, owner, now, errs)) else w
  }

  /** A release within the lease undoes the acquisition: the table is as before, and
      no reader can tell the store from what it was. */
  lemma UnlockUndoesTryLock<V>(w: World<V>, key: Key, at: bytes, owner: V, ttl: int, now: int, later: int, k: bytes,
                               t: int)
    requires ttl > 0 && key !in w.table && Find(w.entries, at, now) == None
    requires now <= later <= now + ttl && now <= t
    ensures var back := Unlocked(TryLocked(w, key, at, owner, ttl, now, false), key, at, owner, later, false);
            back.table == w.table && Find(back.entries, k, t) == Find(w.entries, k, t)
  {
  }

  /** A release by an owner without a live entry touches no entry, whoever owns it now. */
  lemma StaleUnlockKeepsSuccessor<V>(w: World<V>, key: Key, at: bytes, owner: V, now: int, errs: bool)
    requires Find(w.entries, at, now) != Some(owner)
    ensures var after := Unlocked(w, key, at, owner, now, errs);
            after.entries == w.entries && (!errs ==> !CanBeginRelease(after.table, key))
  {
  }

  /** Two stores show the same cached values: all that is not under a lock key. */
  ghost predicate SameValues<V(!new)>(m: Entries<V>, n: Entries<V>) {
    forall k, t: int :: !IsLockKey(k) ==> Find(m, k, t) == Find(n, k, t)
  }

  /** Attempts and releases leave every cached value as it was. */
  lemma LocksSpareValues<V(!new)>(m: Entries<V>, key: Key, owner: V, ttl: int, now: int, errs: bool)
    ensures SameValues(Tried(m, LockKey(key), owner, ttl, now, errs).0, m)
    ensures SameValues(Dropped(m, LockKey(key), owner, now, errs), m)
  {
    LockKeysApart(key, key);
  }

  /** The retry loop leaves the values its last attempt met. */
  lemma LoopSparesValues<V(!new)>(turns: seq<Turn<V>>, key: Key, owner: V, ttl: int)
    requires turns != []
    ensures var i := Deciding(turns, LockKey(key), owner, ttl);
            SameValues(LoopEntries(turns, LockKey(key), owner, ttl),
                turns[if i < |turns| then i else |turns| - 1].entries)
  {
    var i := Deciding(turns, LockKey(key), owner, ttl);
    if i < |turns| {
      LocksSpareValues(turns[i].entries, key, owner, ttl, turns[i].now, turns[i].errs);
    }
  }

  /** No cached value has a part in an answer: stores that agree under the lock keys give the
      same one. */
  lemma AnswersIgnoreValues<V>(m: Entries<V>, n: Entries<V>, key: Key, owner: V, ttl: int, now: int, errs: bool)
    requires forall k :: IsLockKey(k) ==> Find(m, k, now) == Find(n, k, now)
    ensures Tried(m, LockKey(key), owner, ttl, now, errs).1 == Tried(n, LockKey(key), owner, ttl, now, errs).1
    ensures Find(m, LockKey(key), now) == Find(n, LockKey(key), now)
  {
    LockKeysApart(key, key);
  }

  /** What a lock call amounts to, said of the stored entries: an attempt with a positive TTL
      and no error wins exactly on a key without a live entry, and is then seen for its TTL. */
  lemma TriedMeans<V>(m: Entries<V>, key: Key, owner: V, ttl: int, now: int, t: int)
    requires ttl > 0 && now > 0
    ensures var (after, r) := Tried(m, LockKey(key), owner, ttl, now, false);
            && (r == Locked(true) <==> Find(m, LockKey(key), now) == None)
            && (r == Locked(true) ==> Find(after, LockKey(key), t) == if t <= now + ttl then Some(owner) else None)
            && (r != Locked(true) ==> r == Locked(false) && after == m)
  {
  }

  // ------------------------------------------------------------------------- Cache

  class Cache {
    const store: MemoryStore.MemoryStore
    const directLocks: CacheDirectLocks
    const owner: bytes

    constructor (store: MemoryStore.MemoryStore, owner: bytes)
      ensures this.store == store && this.owner == owner
      ensures fresh(directLocks) && directLocks.locks == map[]
    {
      this.store := store;
      this.owner := owner;
      directLocks := new CacheDirectLocks();
    }

    ghost function Now(): World<bytes>
      reads store, directLocks
    {
      World(directLocks.locks, store.items)
    }

    method TryLockOwned(key: Key, who: bytes, ttl: int, now: int, errs: bool) returns (r: Reply)
      modifies store
      ensures (store.items, r) == Tried(old(store.items), LockKey(key), who, ttl, now, errs)
    {
      if ttl <= 0 {
        return BadTtl;
      }
      if errs {
        return Failed;
      }
      var created := store.LockAcquire(LockKey(key), who, ttl, now);
      return Locked(created);
    }

    method TryLock(key: Key, ttl: int, now: int, errs: bool) returns (r: Reply)
      modifies store, directLocks
      ensures Now() == TryLocked(old(Now()), key, LockKey(key), owner, ttl, now, errs)
      ensures SameValues(store.items, old(store.items))
      ensures r == if key in old(directLocks.locks) then Locked(false)
                   else Tried(old(store.items), LockKey(key), owner, ttl, now, errs).1
    {
      var began := directLocks.BeginAcquire(key);
      if !began {
        return Locked(false);
      }
      LocksSpareValues(store.items, key, owner, ttl, now, errs);
      r := TryLockOwned(key, owner, ttl, now, errs);
      directLocks.FinishAcquire(key, r == Locked(true));
      assert r != Locked(true) ==> old(directLocks.locks)[key := Acquiring] - {key} == old(directLocks.locks);
    }

    /** Each attempt meets the entries that other threads left; the context ends after the
        last. */
    method LockOwned(key: Key, who: bytes, ttl: int, turns: seq<Turn<bytes>>) returns (r: Reply)
      requires turns != []
      modifies store
      ensures r == LoopReply(turns, LockKey(key), who, ttl)
      ensures store.items == LoopEntries(turns, LockKey(key), who, ttl)
    {
      var i := 0;
      while true
        invariant 0 <= i < |turns|
        invariant forall j :: 0 <= j < i ==> Try(turns[j], LockKey(key), who, ttl).1 == Locked(false)
        decreases |turns| - i
      {
        store.items := turns[i].entries;
        r := TryLockOwned(key, who, ttl, turns[i].now, turns[i].errs);
        if r != Locked(false) {
          return r;
        }
        i := i + 1;
        if i == |turns| {
          return Stopped;
        }
      }
    }

    /** Polls the local lifecycle, meeting the tables that other threads left, until it can
        reserve the key or the context ends. */
    method Reserve(key: Key, tables: seq<Table>) returns (began: bool)
      requires tables != []
      modifies directLocks
      ensures var i := FirstWithout(tables, key);
              && (began <==> i < |tables|)
              && directLocks.locks == if began then tables[i][key := Acquiring] else tables[|tables| - 1]
    {
      var i := 0;
      while true
        invariant 0 <= i < |tables| && i <= FirstWithout(tables, key)
        decreases |tables| - i
      {
        directLocks.locks := tables[i];
        began := directLocks.BeginAcquire(key);
        if began || i + 1 == |tables| {
          return;
        }
        i := i + 1;
      }
    }

    /** Waits for the local lifecycle and then for the backend; the context may end either
        wait. A loss anywhere leaves the table as the wait found it. */
    method Lock(key: Key, ttl: int, tables: seq<Table>, turns: seq<Turn<bytes>>) returns (r: Reply)
      requires tables != [] && turns != []
      modifies store, directLocks
      ensures var i := FirstWithout(tables, key);
              if i == |tables| then
                r == Stopped && directLocks.locks == tables[i - 1] && store.items == old(store.items)
              else
                && r == LoopReply(turns, LockKey(key), owner, ttl)
                && store.items == LoopEntries(turns, LockKey(key), owner, ttl)
                && directLocks.locks == if r == Locked(true) then tables[i][key := Held] else tables[i]
    {
      var began := Reserve(key, tables);
      if !began {
        return Stopped;
      }
      r := LockOwned(key, owner, ttl, turns);
      directLocks.FinishAcquire(key, r == Locked(true));
      ghost var t := tables[FirstWithout(tables, key)];
      assert t[key := Acquiring] - {key} == t && t[key := Acquiring][key := Held] == t[key := Held];
    }

    method UnlockOwned(key: Key, who: bytes, now: int, errs: bool) returns (ok: bool)
      modifies store
      ensures ok == !errs
      ensures store.items == Dropped(old(store.items), LockKey(key), who, now, errs)
    {
      if errs {
        return false;
      }
      var _ := store.LockRelease(LockKey(key), who, now);
      return true;
    }

    method Unlock(key: Key, now: int, errs: bool) returns (ok: bool)
      modifies store, directLocks
      ensures Now() == Unlocked(old(Now()), key, LockKey(key), owner, now, errs)
      ensures SameValues(store.items, old(store.items))
      ensures ok <==> !CanBeginRelease(old(directLocks.locks), key) || !errs
    {
      var began := directLocks.BeginRelease(key);
      if !began {
        return true;
      }
      LocksSpareValues(store.items, key, owner, 1, now, errs);
      ok := UnlockOwned(key, owner, now, errs);
      directLocks.FinishRelease(key, ok);
      assert old(directLocks.locks)[key := Releasing] - {key} == old(directLocks.locks) - {key};
      assert errs ==> old(directLocks.locks)[key := Releasing][key := Held] == old(directLocks.locks);
    }
  }

  // -------------------------------------------------------------------- LockHandle

  /** What a callback leaves of the store and, if it uses its own handle, of the flag. */
  datatype Callback = Callback(items: Store, held: bool)

  /** The ownership state that a handle shares with its context clones. */
  class LockHandle {
    const cache: Cache
    const key: Key
    const ttl: int
    const owner: bytes
    var held: bool

    constructor (cache: Cache, key: Key, ttl: int, owner: bytes)
      ensures this.cache == cache && this.key == key && this.ttl == ttl && this.owner == owner && !held
    {
      this.cache := cache;
      this.key := key;
      this.ttl := ttl;
      this.owner := owner;
      held := false;
    }

    ghost function Now(): HandleWorld<bytes>
      reads this, cache.store
    {
      HandleWorld(held, cache.store.items)
    }

    /** A held handle makes no backend call. */
    method Acquire(now: int, errs: bool) returns (r: Reply)
      modifies this, cache.store
      ensures (Now(), r) == HandleAcquired(old(Now()), LockKey(key), owner, ttl, now, errs)
      ensures SameValues(cache.store.items, old(cache.store.items))
    {
      if held {
        return Locked(false);
      }
      LocksSpareValues(cache.store.items, key, owner, ttl, now, errs);
      r := cache.TryLockOwned(key, owner, ttl, now, errs);
      if r == Locked(true) {
        held := true;
      }
    }

    /** A handle that is not held makes no backend call; a failed release leaves it held. */
    method Release(now: int, errs: bool) returns (ok: bool)
      modifies this, cache.store
      ensures Now() == HandleReleased(old(Now()), LockKey(key), owner, now, errs)
      ensures SameValues(cache.store.items, old(cache.store.items))
      ensures ok <==> !old(held) || !errs
    {
      if !held {
        return true;
      }
      held := false;
      LocksSpareValues(cache.store.items, key, owner, 1, now, errs);
      ok := cache.UnlockOwned(key, owner, now, errs);
      if !ok {
        held := true;
      }
    }

    /** Runs a callback between an acquisition at `now` and a release at `later`. */
    method Get(now: int, errs: bool, during: Callback, later: int, releaseErrs: bool) returns (r: Reply)
      modifies this, cache.store
      ensures r == HandleAcquired(old(Now()), LockKey(key), owner, ttl, now, errs).1
      ensures r != Locked(true) ==> Now() == old(Now())
      ensures r == Locked(true) ==>
                Now() == HandleReleased(HandleWorld(during.held, during.items), LockKey(key), owner, later, releaseErrs)
    {
      r := Acquire(now, errs);
      if r != Locked(true) {
        return;
      }
      cache.store.items, held := during.items, during.held;
      var _ := Release(later, releaseErrs);
    }

    /** The retrying variant of `Get`. */
    method Block(turns: seq<Turn<bytes>>, during: Callback, later: int, releaseErrs: bool) returns (r: Reply)
      requires turns != []
      modifies this, cache.store
      ensures old(held) ==> r == Locked(false) && Now() == old(Now())
      ensures !old(held) ==> r == LoopReply(turns, LockKey(key), owner, ttl)
      ensures !old(held) && r != Locked(true) ==>
                Now() == HandleWorld(false, LoopEntries(turns, LockKey(key), owner, ttl))
      ensures !old(held) && r == Locked(true) ==>
                Now() == HandleReleased(HandleWorld(during.held, during.items), LockKey(key), owner, later, releaseErrs)
    {
      if held {
        return Locked(false);
      }
      r := cache.LockOwned(key, owner, ttl, turns);
      if r != Locked(true) {
        return;
      }
      held := true;
      cache.store.items, held := during.items, during.held;
      var _ := Release(later, releaseErrs);
    }
  }
}
