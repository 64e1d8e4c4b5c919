/** What every run of the lock protocol guarantees. */
module LockTheorems {
  import opened Bytes
  import opened DirectLocks
  import opened LockProtocol

  ghost predicate Run(run: seq<Sys>, ls: seq<Label>) {
    && |run| == |ls| + 1
    && Init(run[0])
    && forall i :: 0 <= i < |ls| ==> Enabled(run[i], ls[i]) && run[i + 1] == Apply(run[i], ls[i])
  }

  lemma {:induction false} RunInv(run: seq<Sys>, ls: seq<Label>, n: nat)
    requires Run(run, ls) && n < |run|
    ensures Inv(run[n])
  {
    if n == 0 {
    } else {
      RunInv(run, ls, n - 1);
      StepInv(run[n - 1], ls[n - 1]);
    }
  }

  ghost predicate Reachable(s: Sys) {
    exists run: seq<Sys>, ls: seq<Label> :: Run(run, ls) && run[|ls|] == s
  }

  lemma ReachableInv(s: Sys)
    requires Reachable(s)
    ensures Inv(s)
  {
    var run: seq<Sys>, ls: seq<Label> :| Run(run, ls) && run[|ls|] == s;
    RunInv(run, ls, |ls|);
  }

  lemma RunExtends(run: seq<Sys>, ls: seq<Label>, l: Label, s': Sys)
    requires Run(run, ls) && Enabled(run[|ls|], l) && s' == Apply(run[|ls|], l)
    ensures Run(run + [s'], ls + [l])
  {
    var run', ls' := run + [s'], ls + [l];
    forall i | 0 <= i < |ls'|
      ensures Enabled(run'[i], ls'[i]) && run'[i + 1] == Apply(run'[i], ls'[i])
    {
      if i < |ls| {
        assert run'[i] == run[i] && run'[i + 1] == run[i + 1] && ls'[i] == ls[i];
      }
    }
  }

  lemma ReachableStep(s: Sys, l: Label)
    requires Reachable(s) && Enabled(s, l)
    ensures Reachable(Apply(s, l))
  {
    var run: seq<Sys>, ls: seq<Label> :| Run(run, ls) && run[|ls|] == s;
    var s' := Apply(s, l);
    RunExtends(run, ls, l, s');
    var run', ls' := run + [s'], ls + [l];
    assert Run(run', ls') && run'[|ls'|] == s';
  }

  // ---------------------------------------------------------------- continuations

  /** The labels can be taken one after the other from `s`. */
  ghost predicate Runs(s: Sys, ls: seq<Label>)
    decreases |ls|
  {
    ls == [] || (Enabled(s, ls[0]) && Runs(Apply(s, ls[0]), ls[1..]))
  }

  ghost function End(s: Sys, ls: seq<Label>): Sys
    requires Runs(s, ls)
    decreases |ls|
  {
    if ls == [] then s else End(Apply(s, ls[0]), ls[1..])
  }

  lemma RunsOne(s: Sys, l: Label)
    requires Enabled(s, l)
    ensures Runs(s, [l]) && End(s, [l]) == Apply(s, l)
  {
    assert [l][1..] == [];
    assert Runs(Apply(s, l), []);
  }

  lemma {:induction false} RunsAppend(s: Sys, a: seq<Label>, b: seq<Label>)
    requires Runs(s, a) && Runs(End(s, a), b)
    ensures Runs(s, a + b) && End(s, a + b) == End(End(s, a), b)
    decreases |a|
  {
    if a == [] {
      assert a + b == b;
    } else {
      RunsAppend(Apply(s, a[0]), a[1..], b);
      assert (a + b)[1..] == a[1..] + b;
    }
  }

  lemma {:induction false} ReachableRuns(s: Sys, ls: seq<Label>)
    requires Reachable(s) && Runs(s, ls)
    ensures Reachable(End(s, ls))
    decreases |ls|
  {
    if ls == [] {
    } else {
      ReachableStep(s, ls[0]);
      ReachableRuns(Apply(s, ls[0]), ls[1..]);
    }
  }

  /** What a direct step of `tid` leaves: its own position, the table of the Cache it works
      for and the store; every other thread stays. */
  lemma DirectLeaves(s: Sys, tid: Tid, act: DirectAct)
    requires CanDirect(s, PcOf(s, tid), act)
    ensures var e, s' := DoDirect(s, PcOf(s, tid), act), Apply(s, Direct(tid, act));
            && PcOf(s', tid) == e.pc && (forall u :: u != tid ==> PcOf(s', u) == PcOf(s, u))
            && TableOf(s', e.c) == e.table && s'.store == e.backend.entries && s'.now == s.now
  {
  }

  lemma HandleLeaves(s: Sys, tid: Tid, op: HandleAct)
    requires CanHandle(s, PcOf(s, tid), op)
    ensures var e, s' := DoHandle(s, tid, PcOf(s, tid), op), Apply(s, OnHandle(tid, op));
            && PcOf(s', tid) == e.pc
            && e.h in s'.handles && s'.handles[e.h] == e.handle && s'.store == e.backend.entries && s'.now == s.now
  {
  }

  // --------------------------------------------------------------------- ownership

  /** `token`'s owner can still release `k`: its lifecycle is held, or one of its
      threads is on the way between a winning attempt and a successful release. */
  ghost predicate Owner(s: Sys, token: Token, k: Key) {
    match token
    case OfCache(c) =>
      Entry(s, c, k) == Some(Held) || exists t :: Busy(PcOf(s, t), c, k) && Owing(PcOf(s, t))
    case OfHandle(h) =>
      && h in s.handles && s.handles[h].key == k
      && (s.handles[h].held || (s.handles[h].mu.Some? && Owes(PcOf(s, s.handles[h].mu.value))))
  }

  /** No orphaned lock: a live entry always has an owner that can still release it. */
  lemma NoOrphanedLock(run: seq<Sys>, ls: seq<Label>, n: nat, k: Key, token: Token)
    requires Run(run, ls) && n < |run| && Holds(run[n], k, token)
    ensures Owner(run[n], token, k)
  {
    RunInv(run, ls, n);
    var s := run[n];
    match token
    case OfCache(c) =>
      assert CacheClean(s, c, k) && EntryOk(s, c, k);
      if Entry(s, c, k) != Some(Held) {
        var t :| Sole(s, t, c, k, Entry(s, c, k).value);
        assert Busy(PcOf(s, t), c, k) && Owing(PcOf(s, t));
      }
    case OfHandle(h) =>
      assert HandleClean(s, h, k);
      assert HandleOk(s, h);
  }

  lemma {:induction false} SomeAbove(used: set<Tid>) returns (t: Tid)
    ensures forall u :: u in used ==> u < t
  {
    if used == {} {
      t := 0;
    } else {
      var u: Tid :| u in used;
      var v := SomeAbove(used - {u});
      t := if u < v then v else u + 1;
      assert forall w :: w in used ==> w == u || w in used - {u};
    }
  }

  /** Threads are many, so one is always free. */
  lemma SomeIdle(s: Sys) returns (t: Tid)
    ensures PcOf(s, t) == Idle
  {
    t := SomeAbove(s.threads.Keys);
    assert t !in s.threads.Keys;
  }

  /** A Cache that holds a key gives it up in two steps of any thread that is free. */
  lemma HeldReleases(s: Sys, t: Tid, c: CacheId, k: Key) returns (ls: seq<Label>)
    requires Entry(s, c, k) == Some(Held) && (PcOf(s, t) == Idle || PcOf(s, t) == Loading(c, k))
    ensures Gives(s, t, ls, OfCache(c), k)
  {
    var x, y := Direct(t, BeginRelease(c, k)), Direct(t, CallRelease(false));
    DirectLeaves(s, t, x.act);
    var s1 := Apply(s, x);
    RunsOne(s, x);
    ReleaseCallGives(s1, t, c, k);
    RunsOne(s1, y);
    RunsAppend(s, [x], [y]);
    ls := [x] + [y];
  }

  lemma ReleaseCallGives(s: Sys, t: Tid, c: CacheId, k: Key)
    requires PcOf(s, t) == Release(c, k)
    ensures Gives(s, t, [Direct(t, CallRelease(false))], OfCache(c), k)
  {
    DirectLeaves(s, t, CallRelease(false));
    RunsOne(s, Direct(t, CallRelease(false)));
  }

  lemma HandleCallGives(s: Sys, t: Tid, h: HandleId, k: Key)
    requires PcOf(s, t) == HandleRelease(h) && h in s.handles && s.handles[h].key == k
    ensures Gives(s, t, [OnHandle(t, TryRelease(false))], OfHandle(h), k)
  {
    HandleLeaves(s, t, TryRelease(false));
    RunsOne(s, OnHandle(t, TryRelease(false)));
  }

  lemma HeldHandleReleases(s: Sys, t: Tid, h: HandleId, k: Key) returns (ls: seq<Label>)
    requires h in s.handles && s.handles[h].held && s.handles[h].mu == None && s.handles[h].key == k
    requires PcOf(s, t) == Idle || PcOf(s, t) == InCallback(h)
    ensures Gives(s, t, ls, OfHandle(h), k)
  {
    var x, y := OnHandle(t, EnterRelease(h)), OnHandle(t, TryRelease(false));
    HandleLeaves(s, t, x.op);
    var s1 := Apply(s, x);
    RunsOne(s, x);
    HandleCallGives(s1, t, h, k);
    RunsOne(s1, y);
    RunsAppend(s, [x], [y]);
    ls := [x] + [y];
  }

  /** The labels are steps of one thread that take no time and leave no live entry with the
      token. */
  ghost predicate Gives(s: Sys, t: Tid, ls: seq<Label>, token: Token, k: Key) {
    && (forall l :: l in ls ==> (l.Direct? || l.OnHandle?) && l.tid == t)
    && Runs(s, ls) && End(s, ls).now == s.now && !Holds(End(s, ls), k, token)
  }

  /** A first step of the thread before steps that give up the key. */
  lemma GivesAfter(s: Sys, t: Tid, l: Label, ls: seq<Label>, token: Token, k: Key)
    requires (l.Direct? || l.OnHandle?) && l.tid == t && Enabled(s, l) && Gives(Apply(s, l), t, ls, token, k)
    ensures Gives(s, t, [l] + ls, token, k)
  {
    RunsOne(s, l);
    RunsAppend(s, [l], ls);
  }

  lemma CacheCanRelease(s: Sys, c: CacheId, k: Key) returns (t: Tid, ls: seq<Label>)
    requires Inv(s) && Owner(s, OfCache(c), k)
    ensures Gives(s, t, ls, OfCache(c), k)
  {
    if Entry(s, c, k) == Some(Held) {
      t := SomeIdle(s);
      ls := HeldReleases(s, t, c, k);
    } else {
      t :| Busy(PcOf(s, t), c, k) && Owing(PcOf(s, t));
      var pc := PcOf(s, t);
      if pc.Release? {
        ReleaseCallGives(s, t, c, k);
        ls := [Direct(t, CallRelease(false))];
      } else {
        var act := if pc.Acquired? then FinishAcquire else FinishRelease;
        DirectLeaves(s, t, act);
        var rest := HeldReleases(Apply(s, Direct(t, act)), t, c, k);
        GivesAfter(s, t, Direct(t, act), rest, OfCache(c), k);
        ls := [Direct(t, act)] + rest;
      }
    }
  }

  lemma HandleCanRelease(s: Sys, h: HandleId, k: Key) returns (t: Tid, ls: seq<Label>)
    requires Inv(s) && Owner(s, OfHandle(h), k)
    ensures Gives(s, t, ls, OfHandle(h), k)
  {
    assert HandleOk(s, h);
    if s.handles[h].held {
      t := SomeIdle(s);
      ls := HeldHandleReleases(s, t, h, k);
    } else {
      t := s.handles[h].mu.value;
      var pc := PcOf(s, t);
      if pc.HandleRelease? {
        HandleCallGives(s, t, h, k);
        ls := [OnHandle(t, TryRelease(false))];
      } else {
        var op := if pc.HandleAcquired? then LeaveAcquire else LeaveRelease;
        HandleLeaves(s, t, op);
        var rest := HeldHandleReleases(Apply(s, OnHandle(t, op)), t, h, k);
        GivesAfter(s, t, OnHandle(t, op), rest, OfHandle(h), k);
        ls := [OnHandle(t, op)] + rest;
      }
    }
  }

  /** Every live entry can be released: steps of one thread of its owner, at the same clock
      reading, leave the key without it. */
  lemma LiveLockCanBeReleased(run: seq<Sys>, ls: seq<Label>, n: nat, k: Key, token: Token)
    returns (t: Tid, steps: seq<Label>)
    requires Run(run, ls) && n < |run| && Holds(run[n], k, token)
    ensures Gives(run[n], t, steps, token, k)
  {
    RunInv(run, ls, n);
    NoOrphanedLock(run, ls, n, k, token);
    match token
    case OfCache(c) => t, steps := CacheCanRelease(run[n], c, k);
    case OfHandle(h) => t, steps := HandleCanRelease(run[n], h, k);
  }

  /** Mutual exclusion: of two owners of one key, at most one is within its TTL. */
  lemma ExclusiveWithinTtl(run: seq<Sys>, ls: seq<Label>, n: nat, k: Key, a: Token, b: Token)
    requires Run(run, ls) && n < |run| && a != b
    requires Owner(run[n], a, k) && Owner(run[n], b, k)
    ensures var s := run[n];
            && (a, k) in s.until && (b, k) in s.until
            && (s.until[(a, k)] < s.now || s.until[(b, k)] < s.now)
  {
    RunInv(run, ls, n);
    OwnerKept(run[n], a, k);
    OwnerKept(run[n], b, k);
  }

  lemma OwnerKept(s: Sys, token: Token, k: Key)
    requires KeptInv(s) && Owner(s, token, k)
    ensures Kept(s, token, k)
  {
    match token
    case OfCache(c) => assert CacheKept(s, c, k);
    case OfHandle(h) => assert HandleKept(s, h);
  }

  /** Direct lock lifecycle: every step moves every key of every Cache along one edge
      of the cycle, at most one thread is inside an acquire or release of a key, and
      the closing write of either finds the table entry its own opening left. */
  lemma DirectLifecycle(run: seq<Sys>, ls: seq<Label>, n: nat, c: CacheId, k: Key)
    requires Run(run, ls) && n < |ls|
    ensures CycleEdge(Entry(run[n], c, k), Entry(run[n + 1], c, k))
    ensures forall t, u :: Busy(PcOf(run[n], t), c, k) && Busy(PcOf(run[n], u), c, k) ==> t == u
    ensures ls[n].Direct? && ls[n].act.FinishAcquire? && Busy(PcOf(run[n], ls[n].tid), c, k) ==>
              Entry(run[n], c, k) == Some(Acquiring)
    ensures ls[n].Direct? && ls[n].act.FinishRelease? && Busy(PcOf(run[n], ls[n].tid), c, k) ==>
              Entry(run[n], c, k) == Some(Releasing)
  {
    RunInv(run, ls, n);
    var s, l := run[n], ls[n];
    assert EntryOk(s, c, k);
    if l.Direct? {
      DirectFrame(s, PcOf(s, l.tid), l.act, c, k);
    }
  }

  /** LockHandle lifecycle: at most one thread inside the operation mutex; backend
      acquisitions and releases that succeed strictly alternate; a held handle issues
      no acquisition; a release reaches the backend only with an acquisition open. */
  lemma HandleLifecycle(run: seq<Sys>, ls: seq<Label>, n: nat, h: HandleId)
    requires Run(run, ls) && n < |run| && h in run[n].handles
    ensures var s, l := run[n], run[n].handles[h];
            && (forall t, u :: Inside(PcOf(s, t), h) && Inside(PcOf(s, u), h) ==> t == u)
            && l.released <= l.acquired <= l.released + 1
            && (l.held ==> l.acquired == l.released + 1)
            && (forall t :: PcOf(s, t).HandleAcquire? && PcOf(s, t).h == h ==> !l.held && l.acquired == l.released)
            && (forall t :: PcOf(s, t).HandleRelease? && PcOf(s, t).h == h ==> l.acquired == l.released + 1)
  {
    RunInv(run, ls, n);
    var s := run[n];
    assert HandleOk(s, h);
    forall t: Tid | Inside(PcOf(s, t), h) ensures s.handles[h].mu == Some(t) {
      assert ThreadOk(s, t);
    }
  }

  /** The owner and key a release step works for. */
  predicate Releases(s: Sys, l: Label, token: Token, k: Key) {
    match l
    case Direct(tid, act) =>
      var pc := PcOf(s, tid);
      act.CallRelease? && pc.Release? && token == OfCache(pc.c) && k == pc.k
    case OnHandle(tid, op) =>
      var pc := PcOf(s, tid);
      op.TryRelease? && pc.HandleRelease? && token == OfHandle(pc.h) && pc.h in s.handles && k == s.handles[pc.h].key
    case _ => false
  }

  /** Stale release safety: however late a release reaches the backend, every entry
      with another token stays; and once the releaser's own grant has run out, it
      leaves the whole store as it is. */
  lemma StaleReleaseIsHarmless(run: seq<Sys>, ls: seq<Label>, n: nat, token: Token, k: Key)
    requires Run(run, ls) && n < |ls| && Releases(run[n], ls[n], token, k)
    ensures forall k' :: k' in run[n].store && run[n].store[k'].value != token ==>
              k' in run[n + 1].store && run[n + 1].store[k'] == run[n].store[k']
    ensures (token, k) in run[n].until && run[n].until[(token, k)] < run[n].now ==> run[n + 1].store == run[n].store
  {
    RunInv(run, ls, n);
    assert Booked(run[n], k);
  }

  // --------------------------------------------------------------------- progress

  /** A step that thread `t` can take now. */
  ghost predicate CanMove(s: Sys, t: Tid) {
    (exists act :: Enabled(s, Direct(t, act))) || (exists op :: Enabled(s, OnHandle(t, op)))
  }

  lemma CanDirectly(s: Sys, t: Tid, act: DirectAct)
    requires Enabled(s, Direct(t, act))
    ensures CanMove(s, t)
  {
  }

  lemma CanOnHandle(s: Sys, t: Tid, op: HandleAct)
    requires Enabled(s, OnHandle(t, op))
    ensures CanMove(s, t)
  {
  }

  /** Nobody gets stuck inside a call, whether its backend calls succeed or err: every thread
      can move on, but for one whose callback is over while another is inside its handle. */
  lemma NobodyIsStuck(run: seq<Sys>, ls: seq<Label>, n: nat, t: Tid, errs: bool)
    requires Run(run, ls) && n < |run|
    ensures var s, pc := run[n], PcOf(run[n], t);
            && (pc.Acquire? ==> Enabled(s, Direct(t, CallAcquire(errs))))
            && (pc.Acquire? && pc.retries ==> Enabled(s, Direct(t, GiveUp)))
            && (pc.Release? ==> Enabled(s, Direct(t, CallRelease(errs))))
            && (pc.HandleAcquire? ==> Enabled(s, OnHandle(t, TryAcquire(errs))))
            && (pc.HandleAcquire? && pc.retries ==> Enabled(s, OnHandle(t, StopTrying)))
            && (pc.HandleRelease? ==> Enabled(s, OnHandle(t, TryRelease(errs))))
            && (pc.InCallback? ==> pc.h in s.handles && (s.handles[pc.h].mu == None ==> CanMove(s, t)))
            && (!pc.InCallback? && !pc.Idle? ==> CanMove(s, t))
  {
    RunInv(run, ls, n);
    var s, pc := run[n], PcOf(run[n], t);
    assert ThreadOk(s, t);
    match pc
    case Idle =>
    case Acquire(_, _, _, _, _) => CanDirectly(s, t, CallAcquire(errs));
    case Acquired(_, _, _, _) => CanDirectly(s, t, FinishAcquire);
    case Loading(c, k) =>
      CanDirectly(s, t, if CanBeginRelease(TableOf(s, c), k) then BeginRelease(c, k) else EndLoad);
    case Release(_, _) => CanDirectly(s, t, CallRelease(errs));
    case Released(_, _, _) => CanDirectly(s, t, FinishRelease);
    case HandleAcquire(h, _, _, _) =>
      assert Inside(pc, h);
      CanOnHandle(s, t, TryAcquire(errs));
    case HandleAcquired(h, _, _) =>
      assert Inside(pc, h);
      CanOnHandle(s, t, LeaveAcquire);
    case InCallback(h) =>
      if s.handles[h].mu == None {
        CanOnHandle(s, t, if s.handles[h].held then EnterRelease(h) else EndCallback);
      }
    case HandleRelease(h) =>
      assert Inside(pc, h);
      CanOnHandle(s, t, TryRelease(errs));
    case HandleReleased(h, _) =>
      assert Inside(pc, h);
      CanOnHandle(s, t, LeaveRelease);
  }
}
