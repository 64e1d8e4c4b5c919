/** The lock calls of `CacheLocks` and the steps of `LockProtocol` agree: what a method
    computes is what the uninterrupted steps of its thread do, errors included. Retry loops,
    with other threads in between, are in `DirectCalls` and `HandleCalls`. */
module CallsAsSteps {
  import opened Bytes
  import opened DirectLocks
  import opened LockProtocol
  import CacheLocks

  ghost predicate Step(s: Sys, l: Label, s': Sys) {
    Enabled(s, l) && s' == Apply(s, l)
  }

  ghost function WorldOf(s: Sys, c: CacheId): CacheLocks.World<Token> {
    CacheLocks.World(TableOf(s, c), s.store)
  }

  function ReplyOf(s: Sys, k: Key, token: Token, ttl: int, errs: bool): CacheLocks.Reply {
    CacheLocks.Tried(s.store, k, token, ttl, s.now, errs).1
  }

  /** The backend calls of both are the same. */
  lemma BackendAgrees(s: Sys, k: Key, token: Token, ttl: int, errs: bool)
    ensures Attempt(s, k, token, ttl, errs).entries == CacheLocks.Tried(s.store, k, token, ttl, s.now, errs).0
    ensures Wins(s, k, ttl, errs) <==> ReplyOf(s, k, token, ttl, errs) == CacheLocks.Locked(true)
    ensures ttl > 0 && !errs && !Wins(s, k, ttl, errs) <==> ReplyOf(s, k, token, ttl, errs) == CacheLocks.Locked(false)
    ensures Drop(s, k, token, errs).entries == CacheLocks.Dropped(s.store, k, token, s.now, errs)
  {
  }

  // ------------------------------------------------------------------ direct locks

  /** What thread `tid` and the Cache `c` see of the system. */
  ghost predicate Sees(s: Sys, tid: Tid, c: CacheId, pc: Pc, w: CacheLocks.World<Token>) {
    PcOf(s, tid) == pc && WorldOf(s, c) == w
  }

  lemma BeginStep(s: Sys, tid: Tid, c: CacheId, k: Key, ttl: int, retries: bool, s': Sys)
    requires PcOf(s, tid) == Idle && Step(s, Direct(tid, BeginAcquire(c, k, ttl, retries, false)), s')
    ensures k !in TableOf(s, c) && s'.now == s.now
    ensures Sees(s', tid, c, Acquire(c, k, ttl, retries, false),
                 CacheLocks.World(TableOf(s, c)[k := Acquiring], s.store))
  {
  }

  /** An attempt does what `Tried` says; only a plain no makes a retrying caller try again. */
  lemma AttemptStep(s: Sys, tid: Tid, c: CacheId, k: Key, ttl: int, retries: bool, errs: bool, s': Sys)
    requires PcOf(s, tid) == Acquire(c, k, ttl, retries, false) && Step(s, Direct(tid, CallAcquire(errs)), s')
    ensures var reply := ReplyOf(s, k, OfCache(c), ttl, errs);
            && s'.store == CacheLocks.Tried(s.store, k, OfCache(c), ttl, s.now, errs).0
            && TableOf(s', c) == TableOf(s, c) && s'.now == s.now
            && PcOf(s', tid) == if retries && reply == CacheLocks.Locked(false) then PcOf(s, tid)
                                else Acquired(c, k, reply == CacheLocks.Locked(true), false)
  {
    BackendAgrees(s, k, OfCache(c), ttl, errs);
  }

  lemma FinishStep(s: Sys, tid: Tid, c: CacheId, k: Key, won: bool, s': Sys)
    requires PcOf(s, tid) == Acquired(c, k, won, false) && Step(s, Direct(tid, FinishAcquire), s')
    ensures Sees(s', tid, c, Idle, CacheLocks.World(FinishedAcquire(TableOf(s, c), k, won), s.store))
  {
  }

  lemma TableCloses(t: Table, k: Key)
    requires k !in t
    ensures FinishedAcquire(t[k := Acquiring], k, true) == t[k := Held]
    ensures FinishedAcquire(t[k := Acquiring], k, false) == t
  {
    assert t[k := Acquiring][k := Held] == t[k := Held];
    assert t[k := Acquiring] - {k} == t;
  }

  /** TryLock: its three steps, taken without interruption, do what the call does. */
  lemma TryLockAsSteps(s: Sys, s1: Sys, s2: Sys, s': Sys, tid: Tid, c: CacheId, k: Key, ttl: int, errs: bool)
    requires PcOf(s, tid) == Idle
    requires Step(s, Direct(tid, BeginAcquire(c, k, ttl, false, false)), s1)
    requires Step(s1, Direct(tid, CallAcquire(errs)), s2)
    requires Step(s2, Direct(tid, FinishAcquire), s')
    ensures Sees(s', tid, c, Idle, CacheLocks.TryLocked(WorldOf(s, c), k, k, OfCache(c), ttl, s.now, errs))
  {
    BeginStep(s, tid, c, k, ttl, false, s1);
    AttemptStep(s1, tid, c, k, ttl, false, errs, s2);
    FinishStep(s2, tid, c, k, ReplyOf(s1, k, OfCache(c), ttl, errs) == CacheLocks.Locked(true), s');
    TableCloses(TableOf(s, c), k);
  }

  /** The turn of a retry loop that an attempt from `s` meets. */
  function TurnOf(s: Sys, errs: bool): CacheLocks.Turn<Token> {
    CacheLocks.Turn(s.store, s.now, errs)
  }

  lemma ReleaseStep(s: Sys, tid: Tid, c: CacheId, k: Key, errs: bool, s': Sys)
    requires PcOf(s, tid) == Release(c, k) && Step(s, Direct(tid, CallRelease(errs)), s')
    ensures Sees(s', tid, c, Released(c, k, !errs),
                 CacheLocks.World(TableOf(s, c), CacheLocks.Dropped(s.store, k, OfCache(c), s.now, errs)))
  {
    BackendAgrees(s, k, OfCache(c), 1, errs);
  }

  lemma TableReopens(t: Table, k: Key)
    requires CanBeginRelease(t, k)
    ensures FinishedRelease(t[k := Releasing], k, true) == t - {k}
    ensures FinishedRelease(t[k := Releasing], k, false) == t
  {
    assert t[k := Releasing] - {k} == t - {k};
    assert t[k := Releasing][k := Held] == t;
  }

  /** Unlock, whether its backend call succeeds or fails. */
  lemma UnlockAsSteps(s: Sys, s1: Sys, s2: Sys, s': Sys, tid: Tid, c: CacheId, k: Key, errs: bool)
    requires PcOf(s, tid) == Idle
    requires Step(s, Direct(tid, BeginRelease(c, k)), s1)
    requires Step(s1, Direct(tid, CallRelease(errs)), s2)
    requires Step(s2, Direct(tid, FinishRelease), s')
    ensures Sees(s', tid, c, Idle, CacheLocks.Unlocked(WorldOf(s, c), k, k, OfCache(c), s.now, errs))
  {
    assert Sees(s1, tid, c, Release(c, k), CacheLocks.World(TableOf(s, c)[k := Releasing], s.store)) && s1.now == s.now;
    ReleaseStep(s1, tid, c, k, errs, s2);
    TableReopens(TableOf(s, c), k);
  }

  // ----------------------------------------------------------------------- handles

  ghost predicate HandleSees(s: Sys, tid: Tid, h: HandleId, pc: Pc, k: Key, held: bool,
                             entries: CacheLocks.Entries<Token>)
  {
    && PcOf(s, tid) == pc && h in s.handles && s.handles[h].key == k && s.handles[h].held == held
    && s.store == entries
  }

  lemma EnterStep(s: Sys, tid: Tid, h: HandleId, k: Key, ttl: int, retries: bool, callback: bool, s': Sys)
    requires PcOf(s, tid) == Idle && Step(s, OnHandle(tid, EnterAcquire(h, ttl, retries, callback)), s')
    requires s.handles[h].key == k
    ensures !s.handles[h].held && s'.now == s.now
    ensures HandleSees(s', tid, h, HandleAcquire(h, ttl, retries, callback), k, false, s.store)
  {
  }

  lemma HandleAttemptStep(s: Sys, tid: Tid, h: HandleId, k: Key, ttl: int, retries: bool, callback: bool, errs: bool,
                          s': Sys)
    requires HandleSees(s, tid, h, HandleAcquire(h, ttl, retries, callback), k, false, s.store)
    requires Step(s, OnHandle(tid, TryAcquire(errs)), s')
    ensures var reply := ReplyOf(s, k, OfHandle(h), ttl, errs);
            HandleSees(s', tid, h,
                       if retries && reply == CacheLocks.Locked(false) then PcOf(s, tid)
                       else HandleAcquired(h, reply == CacheLocks.Locked(true), callback),
                       k, false, CacheLocks.Tried(s.store, k, OfHandle(h), ttl, s.now, errs).0)
  {
    BackendAgrees(s, k, OfHandle(h), ttl, errs);
  }

  lemma LeaveStep(s: Sys, tid: Tid, h: HandleId, k: Key, won: bool, callback: bool, s': Sys)
    requires HandleSees(s, tid, h, HandleAcquired(h, won, callback), k, false, s.store)
    requires Step(s, OnHandle(tid, LeaveAcquire), s')
    ensures HandleSees(s', tid, h, if won && callback then InCallback(h) else Idle, k, won, s.store)
  {
  }

  /** Acquire, and the first half of Get: their steps, taken without interruption, do what
      the call does; the thread goes on to the callback only after a win. */
  lemma AcquireAsSteps(s: Sys, s1: Sys, s2: Sys, s': Sys, tid: Tid, h: HandleId, k: Key, ttl: int, callback: bool,
                       errs: bool)
    requires PcOf(s, tid) == Idle && h in s.handles && s.handles[h].key == k
    requires Step(s, OnHandle(tid, EnterAcquire(h, ttl, false, callback)), s1)
    requires Step(s1, OnHandle(tid, TryAcquire(errs)), s2)
    requires Step(s2, OnHandle(tid, LeaveAcquire), s')
    ensures var (w, r) := CacheLocks.HandleAcquired(CacheLocks.HandleWorld(s.handles[h].held, s.store), k,
              OfHandle(h), ttl, s.now, errs);
            HandleSees(s', tid, h, if r == CacheLocks.Locked(true) && callback then InCallback(h) else Idle, k,
                w.held, w.entries)
  {
    EnterStep(s, tid, h, k, ttl, false, callback, s1);
    HandleAttemptStep(s1, tid, h, k, ttl, false, callback, errs, s2);
    LeaveStep(s2, tid, h, k, ReplyOf(s1, k, OfHandle(h), ttl, errs) == CacheLocks.Locked(true), callback, s');
  }

  lemma HandleReleaseStep(s: Sys, tid: Tid, h: HandleId, k: Key, errs: bool, s': Sys)
    requires HandleSees(s, tid, h, HandleRelease(h), k, false, s.store) && Step(s, OnHandle(tid, TryRelease(errs)), s')
    ensures HandleSees(s', tid, h, HandleReleased(h, !errs), k, false,
                       CacheLocks.Dropped(s.store, k, OfHandle(h), s.now, errs))
  {
    BackendAgrees(s, k, OfHandle(h), 1, errs);
  }

  /** Release of a held handle, by itself or after the callback of Get or Block, whether its
      backend call succeeds or fails. */
  lemma ReleaseAsSteps(s: Sys, s1: Sys, s2: Sys, s': Sys, tid: Tid, h: HandleId, k: Key, errs: bool)
    requires (PcOf(s, tid) == Idle || PcOf(s, tid) == InCallback(h)) && h in s.handles && s.handles[h].key == k
    requires Step(s, OnHandle(tid, EnterRelease(h)), s1)
    requires Step(s1, OnHandle(tid, TryRelease(errs)), s2)
    requires Step(s2, OnHandle(tid, LeaveRelease), s')
    ensures var w := CacheLocks.HandleReleased(CacheLocks.HandleWorld(s.handles[h].held, s.store), k, OfHandle(h),
              s.now, errs);
            HandleSees(s', tid, h, Idle, k, w.held, w.entries)
  {
    assert s.handles[h].held && HandleSees(s1, tid, h, HandleRelease(h), k, false, s.store) && s1.now == s.now;
    HandleReleaseStep(s1, tid, h, k, errs, s2);
  }

  /** A release that finds its handle not held: the callback let it go, and the call returns. */
  lemma EmptyReleaseAsSteps(s: Sys, s': Sys, tid: Tid, h: HandleId, k: Key)
    requires PcOf(s, tid) == InCallback(h) && h in s.handles && s.handles[h].key == k
    requires Step(s, OnHandle(tid, EndCallback), s')
    ensures var w := CacheLocks.HandleReleased(CacheLocks.HandleWorld(s.handles[h].held, s.store), k, OfHandle(h),
              s.now, false);
            HandleSees(s', tid, h, Idle, k, w.held, w.entries)
  {
  }

  // --------------------------------------------------------- the calls can always be made

  /** A free thread can begin on any key its Cache has no lifecycle for, and go on to the end. */
  lemma TryLockCanRun(s: Sys, tid: Tid, c: CacheId, k: Key, ttl: int, retries: bool, errs: bool)
    requires PcOf(s, tid) == Idle
    ensures var x := Direct(tid, BeginAcquire(c, k, ttl, retries, false));
            && (Enabled(s, x) <==> k !in TableOf(s, c))
            && (Enabled(s, x) ==> Enabled(Apply(s, x), Direct(tid, CallAcquire(errs))))
  {
    if k !in TableOf(s, c) {
      BeginStep(s, tid, c, k, ttl, retries, Apply(s, Direct(tid, BeginAcquire(c, k, ttl, retries, false))));
    }
  }

  lemma AttemptsCanGoOn(s: Sys, tid: Tid, c: CacheId, k: Key, ttl: int, retries: bool, errs: bool)
    requires PcOf(s, tid) == Acquire(c, k, ttl, retries, false)
    ensures var s' := Apply(s, Direct(tid, CallAcquire(errs)));
            Enabled(s', Direct(tid, CallAcquire(errs))) || Enabled(s', Direct(tid, FinishAcquire))
    ensures retries ==> Enabled(s, Direct(tid, GiveUp))
  {
    AttemptStep(s, tid, c, k, ttl, retries, errs, Apply(s, Direct(tid, CallAcquire(errs))));
  }

  /** A free thread can enter a handle that is neither held nor in use, to acquire it, and one
      that is held and not in use, to release it. */
  lemma HandleCanRun(s: Sys, tid: Tid, h: HandleId, ttl: int, retries: bool, callback: bool)
    requires PcOf(s, tid) == Idle && h in s.handles
    ensures Enabled(s, OnHandle(tid, EnterAcquire(h, ttl, retries, callback))) <==>
              s.handles[h].mu == None && !s.handles[h].held
    ensures Enabled(s, OnHandle(tid, EnterRelease(h))) <==> s.handles[h].mu == None && s.handles[h].held
  {
  }
}
