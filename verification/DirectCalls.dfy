/** Whole calls of Cache's TryLock and Lock, from the reservation to the closing step, with
    the steps of other threads in between. */
module DirectCalls {
  import opened Bytes
  import opened DirectLocks
  import opened LockProtocol
  import opened LockTheorems
  import CacheLocks
  import CallsAsSteps

  /** Thread `t` makes one TryLock, Lock or refresh acquisition of (c, k), from its
      reservation at step `i` to its closing step `n`. */
  ghost predicate IsAcquisition(run: seq<Sys>, ls: seq<Label>, t: Tid, c: CacheId, k: Key, i: nat, n: nat)
    requires Run(run, ls)
  {
    && i < n < |ls|
    && ls[i].Direct? && ls[i].tid == t && ls[i].act.BeginAcquire? && ls[i].act.c == c && ls[i].act.k == k
    && (forall j :: i < j <= n ==> Busy(PcOf(run[j], t), c, k))
    && !Busy(PcOf(run[n + 1], t), c, k)
  }

  predicate AttemptBy(l: Label, t: Tid) {
    l.Direct? && l.tid == t && l.act.CallAcquire?
  }

  /** What the attempts of `t` met after step `i` and before step `m`. */
  function Turns(run: seq<Sys>, ls: seq<Label>, t: Tid, i: nat, m: nat): seq<CacheLocks.Turn<Token>>
    requires i < m <= |ls| < |run|
  {
    if m == i + 1 then []
    else
      Turns(run, ls, t, i, m - 1)
      + if AttemptBy(ls[m - 1], t) then [CallsAsSteps.TurnOf(run[m - 1], ls[m - 1].act.errs)] else []
  }

  /** What the position of `t` says of its attempts so far. */
  predicate Tells(pc: Pc, c: CacheId, k: Key, ttl: int, turns: seq<CacheLocks.Turn<Token>>) {
    match pc
    case Acquire(c', k', ttl', _, _) => c' == c && k' == k && ttl' == ttl
        && CacheLocks.Undecided(turns, k, OfCache(c), ttl)
    case Acquired(c', k', ok, _) =>
      c' == c && k' == k && ok == (CacheLocks.LoopReply(turns, k, OfCache(c), ttl) == CacheLocks.Locked(true))
    case _ => false
  }

  lemma AttemptTells(s: Sys, t: Tid, errs: bool, c: CacheId, k: Key, ttl: int, turns: seq<CacheLocks.Turn<Token>>)
    requires PcOf(s, t).Acquire? && Tells(PcOf(s, t), c, k, ttl, turns)
    ensures var s', turns' := Apply(s, Direct(t, CallAcquire(errs))), turns + [CallsAsSteps.TurnOf(s, errs)];
            && Tells(PcOf(s', t), c, k, ttl, turns')
            && s'.store == CacheLocks.LoopEntries(turns', k, OfCache(c), ttl)
  {
    DirectLeaves(s, t, CallAcquire(errs));
    CallsAsSteps.BackendAgrees(s, k, OfCache(c), ttl, errs);
    CacheLocks.NextTurn(turns, CallsAsSteps.TurnOf(s, errs), k, OfCache(c), ttl);
  }

  /** The other steps of the call: giving up and closing. */
  lemma OtherActTells(s: Sys, t: Tid, act: DirectAct, c: CacheId, k: Key, ttl: int, turns: seq<CacheLocks.Turn<Token>>)
    requires CanDirect(s, PcOf(s, t), act) && !act.CallAcquire? && Tells(PcOf(s, t), c, k, ttl, turns)
    ensures var pc := PcOf(Apply(s, Direct(t, act)), t);
            if act.FinishAcquire? then !Busy(pc, c, k) else Tells(pc, c, k, ttl, turns)
  {
    DirectLeaves(s, t, act);
  }

  lemma StageStep(run: seq<Sys>, ls: seq<Label>, t: Tid, c: CacheId, k: Key, ttl: int, i: nat, m: nat)
    requires Run(run, ls) && i < m < |ls| && Tells(PcOf(run[m], t), c, k, ttl, Turns(run, ls, t, i, m))
    requires Busy(PcOf(run[m + 1], t), c, k)
    ensures Tells(PcOf(run[m + 1], t), c, k, ttl, Turns(run, ls, t, i, m + 1))
  {
    var s, l, turns := run[m], ls[m], Turns(run, ls, t, i, m);
    assert run[m + 1] == Apply(s, l);
    if AttemptBy(l, t) {
      AttemptTells(s, t, l.act.errs, c, k, ttl, turns);
    } else {
      assert Turns(run, ls, t, i, m + 1) == turns;
      if l.Direct? && l.tid == t {
        OtherActTells(s, t, l.act, c, k, ttl, turns);
      } else {
        OthersStay(s, l);
      }
    }
  }

  lemma {:induction false} CallTells(run: seq<Sys>, ls: seq<Label>, t: Tid, c: CacheId, k: Key, i: nat, n: nat, m: nat)
    requires Run(run, ls) && IsAcquisition(run, ls, t, c, k, i, n) && i < m <= n
    ensures Tells(PcOf(run[m], t), c, k, ls[i].act.ttl, Turns(run, ls, t, i, m))
  {
    if m == i + 1 {
      DirectLeaves(run[i], t, ls[i].act);
    } else {
      CallTells(run, ls, t, c, k, i, n, m - 1);
      StageStep(run, ls, t, c, k, ls[i].act.ttl, i, m - 1);
    }
  }

  /** Each attempt of the call leaves in the store what the retry loop leaves after it. */
  lemma AttemptLeaves(run: seq<Sys>, ls: seq<Label>, t: Tid, c: CacheId, k: Key, i: nat, n: nat, j: nat)
    requires Run(run, ls) && IsAcquisition(run, ls, t, c, k, i, n) && i < j < n && AttemptBy(ls[j], t)
    ensures run[j + 1].store
         == CacheLocks.LoopEntries(Turns(run, ls, t, i, j + 1), k, OfCache(c), ls[i].act.ttl)
  {
    CallTells(run, ls, t, c, k, i, n, j);
    AttemptTells(run[j], t, ls[j].act.errs, c, k, ls[i].act.ttl, Turns(run, ls, t, i, j));
  }

  /** A thread inside an acquisition finds its key reserved, whatever others do. */
  lemma StaysReserved(run: seq<Sys>, ls: seq<Label>, t: Tid, c: CacheId, k: Key, i: nat, n: nat, j: nat)
    requires Run(run, ls) && IsAcquisition(run, ls, t, c, k, i, n) && i < j <= n
    ensures Entry(run[j], c, k) == Some(Acquiring)
  {
    CallTells(run, ls, t, c, k, i, n, j);
    RunInv(run, ls, j);
    assert EntryOk(run[j], c, k);
  }

  /** A whole acquisition, with any steps of other threads in between: its key was free in
      the table, stays reserved for it, and ends held exactly if the retry loop of
      `CacheLocks` wins on the turns that the attempts met, and otherwise free again. */
  lemma WholeAcquisition(run: seq<Sys>, ls: seq<Label>, t: Tid, c: CacheId, k: Key, i: nat, n: nat)
    requires Run(run, ls) && IsAcquisition(run, ls, t, c, k, i, n)
    ensures Entry(run[i], c, k) == None && forall j :: i < j <= n ==> Entry(run[j], c, k) == Some(Acquiring)
    ensures var reply := CacheLocks.LoopReply(Turns(run, ls, t, i, n), k, OfCache(c), ls[i].act.ttl);
            Entry(run[n + 1], c, k) == if reply == CacheLocks.Locked(true) then Some(Held) else None
  {
    forall j | i < j <= n
      ensures Entry(run[j], c, k) == Some(Acquiring)
    {
      StaysReserved(run, ls, t, c, k, i, n, j);
    }
    DirectFrame(run[i], PcOf(run[i], t), ls[i].act, c, k);
    CallTells(run, ls, t, c, k, i, n, n);
    LastStep(run[n], ls[n], t, c, k, ls[i].act.ttl, Turns(run, ls, t, i, n));
  }

  lemma LastStep(s: Sys, l: Label, t: Tid, c: CacheId, k: Key, ttl: int, turns: seq<CacheLocks.Turn<Token>>)
    requires Enabled(s, l) && Tells(PcOf(s, t), c, k, ttl, turns) && !Busy(PcOf(Apply(s, l), t), c, k)
    ensures var reply := CacheLocks.LoopReply(turns, k, OfCache(c), ttl);
            Entry(Apply(s, l), c, k) == if reply == CacheLocks.Locked(true) then Some(Held) else None
  {
    OthersStay(s, l);
    assert Busy(PcOf(s, t), c, k);
    if l.Direct? && l.tid == t {
      DirectFrame(s, PcOf(s, t), l.act, c, k);
    }
  }
}
