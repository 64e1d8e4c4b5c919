/** Background refreshes: when at most one loader per key is in flight, and when not. */
module SingleFlight {
  import opened Bytes
  import opened ExpiringMap
  import opened DirectLocks
  import opened LockProtocol
  import opened LockTheorems

  /** While some thread loads under a refresh lock, nobody else begins to release it. */
  ghost predicate SparesLoader(s: Sys, l: Label) {
    l.Direct? && l.act.BeginRelease? && (exists t :: PcOf(s, t) == Loading(l.act.c, l.act.k)) ==>
      PcOf(s, l.tid) == Loading(l.act.c, l.act.k)
  }

  ghost predicate FlightOk(s: Sys, c: CacheId, k: Key) {
    && (forall t :: PcOf(s, t) == Loading(c, k) ==> Entry(s, c, k) == Some(Held))
    && (forall t, u :: PcOf(s, t) == Loading(c, k) && PcOf(s, u) == Loading(c, k) ==> t == u)
  }

  /** A thread starts to load only by finishing a won refresh acquisition. */
  lemma LoadBegins(s: Sys, l: Label, t: Tid, c: CacheId, k: Key)
    requires Enabled(s, l) && PcOf(Apply(s, l), t) == Loading(c, k)
    ensures PcOf(s, t) == Loading(c, k) || (l == Direct(t, FinishAcquire) && PcOf(s, t) == Acquired(c, k, true, true))
  {
  }

  /** While a thread goes on loading, nobody moves the entry on. */
  lemma LoadHolds(s: Sys, l: Label, t: Tid, c: CacheId, k: Key)
    requires Enabled(s, l) && SparesLoader(s, l) && EntryOk(s, c, k) && FlightOk(s, c, k)
    requires PcOf(s, t) == Loading(c, k) && PcOf(Apply(s, l), t) == Loading(c, k)
    ensures Entry(Apply(s, l), c, k) == Some(Held)
  {
    if l.Direct? {
      DirectFrame(s, PcOf(s, l.tid), l.act, c, k);
    }
  }

  lemma LoaderHolds(s: Sys, l: Label, c: CacheId, k: Key, t: Tid)
    requires Enabled(s, l) && SparesLoader(s, l) && EntryOk(s, c, k) && FlightOk(s, c, k)
    requires PcOf(Apply(s, l), t) == Loading(c, k)
    ensures Entry(Apply(s, l), c, k) == Some(Held)
  {
    LoadBegins(s, l, t, c, k);
    if PcOf(s, t) == Loading(c, k) {
      LoadHolds(s, l, t, c, k);
    } else {
      assert Busy(PcOf(s, t), c, k);
      DirectFrame(s, PcOf(s, t), FinishAcquire, c, k);
    }
  }

  lemma FlightStep(s: Sys, l: Label, c: CacheId, k: Key)
    requires Enabled(s, l) && SparesLoader(s, l) && EntryOk(s, c, k) && FlightOk(s, c, k)
    ensures FlightOk(Apply(s, l), c, k)
  {
    var s' := Apply(s, l);
    forall t: Tid | PcOf(s', t) == Loading(c, k)
      ensures Entry(s', c, k) == Some(Held)
      ensures PcOf(s, t) == Loading(c, k) || (l == Direct(t, FinishAcquire) && Busy(PcOf(s, t), c, k))
    {
      LoaderHolds(s, l, c, k, t);
      LoadBegins(s, l, t, c, k);
    }
  }

  lemma {:induction false} RunFlight(run: seq<Sys>, ls: seq<Label>, n: nat, c: CacheId, k: Key)
    requires Run(run, ls) && n < |run|
    requires forall i :: 0 <= i < |ls| ==> SparesLoader(run[i], ls[i])
    ensures FlightOk(run[n], c, k)
  {
    if n == 0 {
    } else {
      RunFlight(run, ls, n - 1, c, k);
      RunInv(run, ls, n - 1);
      assert EntryOk(run[n - 1], c, k);
      FlightStep(run[n - 1], ls[n - 1], c, k);
    }
  }

  /** At any time of a run that spares its loaders, whatever the TTL of the refresh lock, at
      most one loader per key runs for a Cache and its context clones. */
  lemma SingleFlight(run: seq<Sys>, ls: seq<Label>, n: nat, c: CacheId, k: Key, t: Tid, u: Tid)
    requires Run(run, ls) && n < |run|
    requires forall i :: 0 <= i < |ls| ==> SparesLoader(run[i], ls[i])
    requires PcOf(run[n], t) == Loading(c, k) && PcOf(run[n], u) == Loading(c, k)
    ensures t == u
  {
    RunFlight(run, ls, n, c, k);
  }

  // ----------------------------------------------------------------- the converse

  /** Refreshes work under refresh keys. */
  ghost predicate Keyed(s: Sys) {
    forall t :: KeyedPc(PcOf(s, t))
  }

  predicate KeyedPc(pc: Pc) {
    pc.Loading? || ((pc.Acquire? || pc.Acquired?) && pc.refresh) ==> IsRefreshKey(pc.k)
  }

  lemma KeyedStep(s: Sys, l: Label)
    requires Keyed(s) && Enabled(s, l)
    ensures Keyed(Apply(s, l))
  {
    OthersStay(s, l);
    if l.Direct? {
      DirectLeaves(s, l.tid, l.act);
      assert KeyedPc(PcOf(s, l.tid));
    } else if l.OnHandle? {
      HandleLeaves(s, l.tid, l.op);
    }
  }

  lemma {:induction false} RunKeyed(run: seq<Sys>, ls: seq<Label>, n: nat)
    requires Run(run, ls) && n < |run|
    ensures Keyed(run[n])
  {
    if n == 0 {
    } else {
      RunKeyed(run, ls, n - 1);
      KeyedStep(run[n - 1], ls[n - 1]);
    }
  }

  lemma LoadersAreKeyed(s: Sys, t: Tid, c: CacheId, k: Key)
    requires Reachable(s) && PcOf(s, t) == Loading(c, k)
    ensures IsRefreshKey(k)
  {
    var run: seq<Sys>, ls: seq<Label> :| Run(run, ls) && run[|ls|] == s;
    RunKeyed(run, ls, |ls|);
    assert KeyedPc(PcOf(s, t));
  }

  /** `t` loads while `u` is at `pc` and the table shows `entry`. */
  ghost predicate Meanwhile(s: Sys, t: Tid, u: Tid, c: CacheId, k: Key, entry: Option<Status>, pc: Pc) {
    t != u && PcOf(s, t) == Loading(c, k) && PcOf(s, u) == pc && Entry(s, c, k) == entry
  }

  /** The rest of the foreign Unlock. */
  lemma Unlocks(s: Sys, t: Tid, u: Tid, c: CacheId, k: Key) returns (ls: seq<Label>)
    requires Meanwhile(s, t, u, c, k, Some(Releasing), Release(c, k))
    ensures Runs(s, ls) && Meanwhile(End(s, ls), t, u, c, k, None, Idle)
  {
    var x, y := Direct(u, CallRelease(false)), Direct(u, FinishRelease);
    DirectLeaves(s, u, x.act);
    var s1 := Apply(s, x);
    assert Meanwhile(s1, t, u, c, k, Some(Releasing), Released(c, k, true));
    DirectLeaves(s1, u, y.act);
    RunsOne(s, x);
    RunsOne(s1, y);
    RunsAppend(s, [x], [y]);
    ls := [x] + [y];
  }

  /** Time passes until nothing lives under the key. */
  lemma Lapses(s: Sys, t: Tid, u: Tid, c: CacheId, k: Key) returns (ls: seq<Label>)
    requires Meanwhile(s, t, u, c, k, None, Idle) && Inv(s)
    ensures Runs(s, ls) && Meanwhile(End(s, ls), t, u, c, k, None, Idle)
    ensures Find(End(s, ls).store, k, End(s, ls).now) == None
  {
    assert Booked(s, k);
    var x := Advance(if k in s.store && s.now <= s.store[k].expiry then s.store[k].expiry + 1 else s.now);
    RunsOne(s, x);
    ls := [x];
  }

  /** A second refresh begins to load. */
  lemma Reloads(s: Sys, t: Tid, u: Tid, c: CacheId, k: Key) returns (ls: seq<Label>)
    requires Meanwhile(s, t, u, c, k, None, Idle) && Find(s.store, k, s.now) == None && IsRefreshKey(k)
    ensures Runs(s, ls) && PcOf(End(s, ls), t) == Loading(c, k) && PcOf(End(s, ls), u) == Loading(c, k)
  {
    var x, y, z := Direct(u, BeginAcquire(c, k, 1, false, true)), Direct(u, CallAcquire(false)),
        Direct(u, FinishAcquire);
    DirectLeaves(s, u, x.act);
    var s1 := Apply(s, x);
    assert Meanwhile(s1, t, u, c, k, Some(Acquiring), Acquire(c, k, 1, false, true));
    DirectLeaves(s1, u, y.act);
    var s2 := Apply(s1, y);
    assert Meanwhile(s2, t, u, c, k, Some(Acquiring), Acquired(c, k, true, true));
    DirectLeaves(s2, u, z.act);
    RunsOne(s, x);
    RunsOne(s1, y);
    RunsOne(s2, z);
    RunsAppend(s1, [y], [z]);
    RunsAppend(s, [x], [y] + [z]);
    ls := [x] + ([y] + [z]);
  }

  /** The proviso is exact: from every reachable state, a step that does not spare a loader
      leads on to a state in which two threads load the same key. */
  lemma ForeignUnlockBreaksSingleFlight(s: Sys, l: Label, t: Tid) returns (ls: seq<Label>)
    requires Reachable(s) && Enabled(s, l) && !SparesLoader(s, l) && PcOf(s, t) == Loading(l.act.c, l.act.k)
    ensures Runs(Apply(s, l), ls) && Reachable(End(Apply(s, l), ls))
    ensures var s', load := End(Apply(s, l), ls), Loading(l.act.c, l.act.k);
            t != l.tid && PcOf(s', t) == load && PcOf(s', l.tid) == load
  {
    var u, c, k := l.tid, l.act.c, l.act.k;
    DirectLeaves(s, u, l.act);
    var s0 := Apply(s, l);
    ReachableStep(s, l);
    var a := Unlocks(s0, t, u, c, k);
    var s1 := End(s0, a);
    ReachableRuns(s0, a);
    ReachableInv(s1);
    var b := Lapses(s1, t, u, c, k);
    LoadersAreKeyed(s, t, c, k);
    var d := Reloads(End(s1, b), t, u, c, k);
    RunsAppend(s1, b, d);
    RunsAppend(s0, a, b + d);
    ls := a + (b + d);
    ReachableRuns(s0, ls);
  }

  // ---------------------------------------------------------------- a failing run

  lemma InitIsReachable(s: Sys)
    requires Init(s)
    ensures Reachable(s)
  {
    var run: seq<Sys>, ls: seq<Label> := [s], [];
    assert Run(run, ls) && run[|ls|] == s;
  }

  /** From a fresh start one refresh begins to load. */
  lemma FirstLoads(s: Sys, t: Tid, c: CacheId, k: Key) returns (ls: seq<Label>)
    requires Init(s) && IsRefreshKey(k)
    ensures Runs(s, ls) && PcOf(End(s, ls), t) == Loading(c, k) && Entry(End(s, ls), c, k) == Some(Held)
    ensures forall u :: u != t ==> PcOf(End(s, ls), u) == Idle
  {
    var x, y, z := Direct(t, BeginAcquire(c, k, 1, false, true)), Direct(t, CallAcquire(false)),
        Direct(t, FinishAcquire);
    DirectLeaves(s, t, x.act);
    var s1 := Apply(s, x);
    assert s1.store == s.store && PcOf(s1, t) == Acquire(c, k, 1, false, true);
    DirectLeaves(s1, t, y.act);
    var s2 := Apply(s1, y);
    assert PcOf(s2, t) == Acquired(c, k, true, true);
    DirectLeaves(s2, t, z.act);
    RunsOne(s, x);
    RunsOne(s1, y);
    RunsOne(s2, z);
    RunsAppend(s1, [y], [z]);
    RunsAppend(s, [x], [y] + [z]);
    ls := [x] + ([y] + [z]);
  }

  /** Single flight does fail: from every fresh start, for every refresh key and any two
      threads, steps lead to a state in which both load. */
  lemma TwoLoadersHappen(s: Sys, t: Tid, u: Tid, c: CacheId, k: Key) returns (ls: seq<Label>)
    requires Init(s) && IsRefreshKey(k) && t != u
    ensures Runs(s, ls) && Reachable(End(s, ls))
    ensures PcOf(End(s, ls), t) == Loading(c, k) && PcOf(End(s, ls), u) == Loading(c, k)
  {
    InitIsReachable(s);
    var a := FirstLoads(s, t, c, k);
    var s1, l := End(s, a), Direct(u, BeginRelease(c, k));
    ReachableRuns(s, a);
    var b := ForeignUnlockBreaksSingleFlight(s1, l, t);
    RunsOne(s1, l);
    RunsAppend(s1, [l], b);
    RunsAppend(s, a, [l] + b);
    ls := a + ([l] + b);
  }
}
