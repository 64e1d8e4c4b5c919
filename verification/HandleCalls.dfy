/** Whole calls of LockHandle's Get and Block, from the operation mutex to the return, with
    the steps of other threads in between. */
module HandleCalls {
  import opened DirectLocks
  import opened LockProtocol
  import opened LockTheorems
  import CacheLocks
  import CallsAsSteps

  /** Thread `t` makes one Get or Block on handle `h`, from step `i` to step `n`. */
  ghost predicate IsCall(run: seq<Sys>, ls: seq<Label>, t: Tid, h: HandleId, i: nat, n: nat)
    requires Run(run, ls)
  {
    && i < n < |ls|
    && ls[i].OnHandle? && ls[i].tid == t && ls[i].op.EnterAcquire? && ls[i].op.h == h && ls[i].op.callback
    && (forall j :: i < j <= n ==> !PcOf(run[j], t).Idle?)
    && PcOf(run[n + 1], t).Idle?
  }

  /** Step `j` is an attempt of `t` that wins. */
  ghost predicate WinsAt(run: seq<Sys>, ls: seq<Label>, t: Tid, h: HandleId, j: nat)
    requires Run(run, ls) && j < |ls|
  {
    && ls[j].OnHandle? && ls[j].tid == t && ls[j].op.TryAcquire? && h in run[j].handles
    && PcOf(run[j], t).HandleAcquire? && Wins(run[j], run[j].handles[h].key, PcOf(run[j], t).ttl, ls[j].op.errs)
  }

  ghost predicate Won(run: seq<Sys>, ls: seq<Label>, t: Tid, h: HandleId, i: nat, m: nat)
    requires Run(run, ls) && m <= |ls|
  {
    exists j :: i < j < m && WinsAt(run, ls, t, h, j)
  }

  ghost predicate CallbackRan(run: seq<Sys>, t: Tid, h: HandleId, i: nat, m: nat)
    requires m < |run|
  {
    exists j :: i < j <= m && PcOf(run[j], t) == InCallback(h)
  }

  predicate Errs(l: Label, t: Tid) {
    l == OnHandle(t, TryRelease(true))
  }

  /** The backend call of the final release failed. */
  ghost predicate ReleaseErred(ls: seq<Label>, t: Tid, i: nat, m: nat)
    requires m <= |ls|
  {
    exists j :: i < j < m && Errs(ls[j], t)
  }

  /** What the position of `t` inside its call says of the call so far. */
  predicate Tells(pc: Pc, h: HandleId, won: bool, ran: bool, erred: bool) {
    match pc
    case HandleAcquire(h', _, _, callback) => h' == h && callback && !won && !ran && !erred
    case HandleAcquired(h', ok, callback) => h' == h && callback && won == ok && !ran && !erred
    case InCallback(h') => h' == h && won && ran && !erred
    case HandleRelease(h') => h' == h && won && ran && !erred
    case HandleReleased(h', ok) => h' == h && won && ran && erred == !ok
    case _ => false
  }

  /** How one step of `t` moves it on inside its call. */
  lemma OwnStepTells(s: Sys, t: Tid, op: HandleAct, h: HandleId, won: bool, ran: bool, erred: bool)
    requires CanHandle(s, PcOf(s, t), op) && Tells(PcOf(s, t), h, won, ran, erred)
    ensures var s' := Apply(s, OnHandle(t, op));
            var won' := won || (op.TryAcquire? && Wins(s, s.handles[h].key, PcOf(s, t).ttl, op.errs));
            var ran' := ran || PcOf(s', t) == InCallback(h);
            PcOf(s', t).Idle? || Tells(PcOf(s', t), h, won', ran', erred || op == TryRelease(true))
  {
    HandleLeaves(s, t, op);
  }

  lemma OtherStepStays(s: Sys, l: Label, t: Tid, h: HandleId, won: bool, ran: bool, erred: bool)
    requires Enabled(s, l) && Tells(PcOf(s, t), h, won, ran, erred) && !(l.OnHandle? && l.tid == t)
    ensures PcOf(Apply(s, l), t) == PcOf(s, t)
  {
    OthersStay(s, l);
  }

  lemma WonGrows(run: seq<Sys>, ls: seq<Label>, t: Tid, h: HandleId, i: nat, m: nat)
    requires Run(run, ls) && i < m < |ls|
    ensures Won(run, ls, t, h, i, m + 1) <==> Won(run, ls, t, h, i, m) || WinsAt(run, ls, t, h, m)
  {
  }

  lemma RanGrows(run: seq<Sys>, t: Tid, h: HandleId, i: nat, m: nat)
    requires i < m && m + 1 < |run|
    ensures CallbackRan(run, t, h, i, m + 1) <==> CallbackRan(run, t, h, i, m) || PcOf(run[m + 1], t) == InCallback(h)
  {
  }

  lemma ErredGrows(ls: seq<Label>, t: Tid, i: nat, m: nat)
    requires i < m < |ls|
    ensures ReleaseErred(ls, t, i, m + 1) <==> ReleaseErred(ls, t, i, m) || Errs(ls[m], t)
  {
  }

  ghost predicate Stage(run: seq<Sys>, ls: seq<Label>, t: Tid, h: HandleId, i: nat, m: nat)
    requires Run(run, ls) && m <= |ls|
  {
    Tells(PcOf(run[m], t), h, Won(run, ls, t, h, i, m), CallbackRan(run, t, h, i, m), ReleaseErred(ls, t, i, m))
  }

  lemma StageStep(run: seq<Sys>, ls: seq<Label>, t: Tid, h: HandleId, i: nat, m: nat)
    requires Run(run, ls) && i < m < |ls| && Stage(run, ls, t, h, i, m)
    ensures PcOf(run[m + 1], t).Idle? || Stage(run, ls, t, h, i, m + 1)
  {
    var won, ran, erred := Won(run, ls, t, h, i, m), CallbackRan(run, t, h, i, m), ReleaseErred(ls, t, i, m);
    WonGrows(run, ls, t, h, i, m);
    RanGrows(run, t, h, i, m);
    ErredGrows(ls, t, i, m);
    var s, l := run[m], ls[m];
    if l.OnHandle? && l.tid == t {
      OwnStepTells(s, t, l.op, h, won, ran, erred);
      assert PcOf(s, t).h == h && h in s.handles;
    } else {
      OtherStepStays(s, l, t, h, won, ran, erred);
    }
  }

  lemma {:induction false} CallStage(run: seq<Sys>, ls: seq<Label>, t: Tid, h: HandleId, i: nat, n: nat, m: nat)
    requires Run(run, ls) && IsCall(run, ls, t, h, i, n) && i < m <= n
    ensures Stage(run, ls, t, h, i, m)
  {
    if m == i + 1 {
      HandleLeaves(run[i], t, ls[i].op);
    } else {
      CallStage(run, ls, t, h, i, n, m - 1);
      StageStep(run, ls, t, h, i, m - 1);
    }
  }

  /** Only the last step of a call brings its thread back, with the flag set accordingly. */
  lemma LastStep(s: Sys, t: Tid, op: HandleAct, h: HandleId, won: bool, ran: bool, erred: bool)
    requires CanHandle(s, PcOf(s, t), op) && Tells(PcOf(s, t), h, won, ran, erred)
    requires PcOf(Apply(s, OnHandle(t, op)), t).Idle?
    ensures h in s.handles && h in Apply(s, OnHandle(t, op)).handles
    ensures Apply(s, OnHandle(t, op)).handles[h].held <==> erred
    ensures won == ran
  {
    HandleLeaves(s, t, op);
  }

  /** A Get or Block runs its callback if and only if one of its attempts won, and leaves
      the handle held if and only if the backend call of its release failed. */
  lemma WholeCall(run: seq<Sys>, ls: seq<Label>, t: Tid, h: HandleId, i: nat, n: nat)
    requires Run(run, ls) && IsCall(run, ls, t, h, i, n)
    ensures CallbackRan(run, t, h, i, n) <==> Won(run, ls, t, h, i, n)
    ensures h in run[n + 1].handles && (run[n + 1].handles[h].held <==> ReleaseErred(ls, t, i, n))
  {
    CallStage(run, ls, t, h, i, n, n);
    var won, ran, erred := Won(run, ls, t, h, i, n), CallbackRan(run, t, h, i, n), ReleaseErred(ls, t, i, n);
    var l := ls[n];
    if !(l.OnHandle? && l.tid == t) {
      OtherStepStays(run[n], l, t, h, won, ran, erred);
      assert false;
    }
    LastStep(run[n], t, l.op, h, won, ran, erred);
  }

  // ------------------------------------------------------- the answer of the retry loop

  predicate AttemptBy(l: Label, t: Tid) {
    l.OnHandle? && l.tid == t && l.op.TryAcquire?
  }

  /** What the attempts of `t` met after step `i` and before step `m`. */
  function Turns(run: seq<Sys>, ls: seq<Label>, t: Tid, i: nat, m: nat): seq<CacheLocks.Turn<Token>>
    requires i < m <= |ls| < |run|
  {
    if m == i + 1 then []
    else
      Turns(run, ls, t, i, m - 1)
      + if AttemptBy(ls[m - 1], t) then [CallsAsSteps.TurnOf(run[m - 1], ls[m - 1].op.errs)] else []
  }

  /** What the position of `t` says of its attempts so far. */
  predicate Answers(pc: Pc, h: HandleId, k: Key, ttl: int, turns: seq<CacheLocks.Turn<Token>>) {
    var won := CacheLocks.LoopReply(turns, k, OfHandle(h), ttl) == CacheLocks.Locked(true);
    match pc
    case HandleAcquire(h', ttl', _, _) => h' == h && ttl' == ttl && CacheLocks.Undecided(turns, k, OfHandle(h), ttl)
    case HandleAcquired(h', ok, _) => h' == h && ok == won
    case InCallback(h') => h' == h && won
    case HandleRelease(h') => h' == h && won
    case HandleReleased(h', _) => h' == h && won
    case _ => false
  }

  predicate KeyedBy(s: Sys, h: HandleId, k: Key) {
    h in s.handles && s.handles[h].key == k
  }

  /** A handle keeps its key. */
  lemma KeyStays(s: Sys, l: Label, h: HandleId, k: Key)
    requires Enabled(s, l) && KeyedBy(s, h, k)
    ensures KeyedBy(Apply(s, l), h, k)
  {
  }

  lemma AttemptAnswers(s: Sys, t: Tid, errs: bool, h: HandleId, k: Key, ttl: int, turns: seq<CacheLocks.Turn<Token>>)
    requires PcOf(s, t).HandleAcquire? && Answers(PcOf(s, t), h, k, ttl, turns) && KeyedBy(s, h, k)
    ensures var s', turns' := Apply(s, OnHandle(t, TryAcquire(errs))), turns + [CallsAsSteps.TurnOf(s, errs)];
            && Answers(PcOf(s', t), h, k, ttl, turns')
            && s'.store == CacheLocks.LoopEntries(turns', k, OfHandle(h), ttl)
  {
    HandleLeaves(s, t, TryAcquire(errs));
    CallsAsSteps.BackendAgrees(s, k, OfHandle(h), ttl, errs);
    CacheLocks.NextTurn(turns, CallsAsSteps.TurnOf(s, errs), k, OfHandle(h), ttl);
  }

  lemma OtherActAnswers(s: Sys, t: Tid, op: HandleAct, h: HandleId, k: Key, ttl: int,
                        turns: seq<CacheLocks.Turn<Token>>)
    requires CanHandle(s, PcOf(s, t), op) && !op.TryAcquire? && Answers(PcOf(s, t), h, k, ttl, turns)
    ensures var pc := PcOf(Apply(s, OnHandle(t, op)), t); pc.Idle? || Answers(pc, h, k, ttl, turns)
  {
    HandleLeaves(s, t, op);
  }

  lemma AnswersStep(run: seq<Sys>, ls: seq<Label>, t: Tid, h: HandleId, k: Key, ttl: int, i: nat, m: nat)
    requires Run(run, ls) && i < m < |ls| && KeyedBy(run[m], h, k)
    requires Answers(PcOf(run[m], t), h, k, ttl, Turns(run, ls, t, i, m)) && !PcOf(run[m + 1], t).Idle?
    ensures KeyedBy(run[m + 1], h, k) && Answers(PcOf(run[m + 1], t), h, k, ttl, Turns(run, ls, t, i, m + 1))
  {
    var s, l, turns := run[m], ls[m], Turns(run, ls, t, i, m);
    assert run[m + 1] == Apply(s, l);
    KeyStays(s, l, h, k);
    if AttemptBy(l, t) {
      AttemptAnswers(s, t, l.op.errs, h, k, ttl, turns);
    } else {
      assert Turns(run, ls, t, i, m + 1) == turns;
      if l.OnHandle? && l.tid == t {
        OtherActAnswers(s, t, l.op, h, k, ttl, turns);
      } else {
        OthersStay(s, l);
      }
    }
  }

  lemma {:induction false} CallAnswers(run: seq<Sys>, ls: seq<Label>, t: Tid, h: HandleId, k: Key, i: nat, n: nat,
                                       m: nat)
    requires Run(run, ls) && IsCall(run, ls, t, h, i, n) && KeyedBy(run[i], h, k) && i < m <= n
    ensures KeyedBy(run[m], h, k) && Answers(PcOf(run[m], t), h, k, ls[i].op.ttl, Turns(run, ls, t, i, m))
  {
    if m == i + 1 {
      HandleLeaves(run[i], t, ls[i].op);
      KeyStays(run[i], ls[i], h, k);
    } else {
      CallAnswers(run, ls, t, h, k, i, n, m - 1);
      AnswersStep(run, ls, t, h, k, ls[i].op.ttl, i, m - 1);
    }
  }

  /** Each attempt of the call leaves in the store what the retry loop leaves after it. */
  lemma AttemptLeaves(run: seq<Sys>, ls: seq<Label>, t: Tid, h: HandleId, k: Key, i: nat, n: nat, j: nat)
    requires Run(run, ls) && IsCall(run, ls, t, h, i, n) && KeyedBy(run[i], h, k) && i < j < n && AttemptBy(ls[j], t)
    ensures run[j + 1].store
         == CacheLocks.LoopEntries(Turns(run, ls, t, i, j + 1), k, OfHandle(h), ls[i].op.ttl)
  {
    CallAnswers(run, ls, t, h, k, i, n, j);
    AttemptAnswers(run[j], t, ls[j].op.errs, h, k, ls[i].op.ttl, Turns(run, ls, t, i, j));
  }

  /** The callback of a Get or Block runs exactly if the retry loop of `CacheLocks` wins on
      the turns that the attempts met, with any steps of other threads in between. */
  lemma CallbackOnLoopWin(run: seq<Sys>, ls: seq<Label>, t: Tid, h: HandleId, k: Key, i: nat, n: nat)
    requires Run(run, ls) && IsCall(run, ls, t, h, i, n) && KeyedBy(run[i], h, k)
    ensures CallbackRan(run, t, h, i, n) <==>
              CacheLocks.LoopReply(Turns(run, ls, t, i, n), k, OfHandle(h), ls[i].op.ttl) == CacheLocks.Locked(true)
  {
    CallStage(run, ls, t, h, i, n, n);
    CallAnswers(run, ls, t, h, k, i, n, n);
    WholeCall(run, ls, t, h, i, n);
    var pc := PcOf(run[n], t);
    assert !pc.HandleAcquire? && !pc.HandleRelease? by {
      OthersStay(run[n], ls[n]);
      if ls[n].OnHandle? && ls[n].tid == t {
        HandleLeaves(run[n], t, ls[n].op);
      }
    }
  }
}
