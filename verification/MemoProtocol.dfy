/** Concurrent reads and mutations through one memo store: a read is a snapshot, a
    backend read and a guarded publication; a mutation is a backend write and a
    later invalidation; everything may fall in between. */
module MemoProtocol {
  import opened Bytes
  import opened MemoStore

  type Tid = nat

  /** A backend write: what it may have changed and the contents it left. The first
      entry of a log stands for the initial contents. */
  datatype Write = Write(scope: Scope, after: map<Key, bytes>)

  /** `started` on reads, `done`, `lost` and `total` are history: which writes had been
      invalidated, which never will be because their backend call took effect and reported an
      error, and how many invalidations there have been. */
  datatype Pc =
    | Idle
    | Missed(k: Key, seen: int, total: nat, started: set<nat>)
    | Read(k: Key, seen: int, total: nat, started: set<nat>, v: Value, at: nat)
    | Got(k: Key, v: Value, started: set<nat>)
    | Written(at: nat)

  datatype Sys = Sys(
    items: Items,
    generation: int,
    log: seq<Write>,
    threads: map<Tid, Pc>,
    done: set<nat>,
    lost: set<nat>,
    total: nat)

  datatype Label =
    | StartGet(tid: Tid, k: Key)
    | ReadBackend(tid: Tid)
    | FailRead(tid: Tid)
    | Publish(tid: Tid)
    | Return(tid: Tid)
    | Mutate(tid: Tid, scope: Scope, after: map<Key, bytes>)
    | Invalidate(tid: Tid)
    | LoseReply(tid: Tid)

  function PcOf(s: Sys, t: Tid): Pc {
    if t in s.threads then s.threads[t] else Idle
  }

  function ValueAt(log: seq<Write>, i: nat, k: Key): Value
    requires i < |log|
  {
    ValueIn(log[i].after, k)
  }

  /** What the backend answers now. */
  function Current(s: Sys, k: Key): Value
    requires s.log != []
  {
    ValueAt(s.log, |s.log| - 1, k)
  }

  ghost predicate Enabled(s: Sys, l: Label) {
    && s.log != []
    && match l
       case StartGet(tid, k) => PcOf(s, tid).Idle?
       case ReadBackend(tid) => PcOf(s, tid).Missed?
       case FailRead(tid) => PcOf(s, tid).Missed?
       case Publish(tid) => PcOf(s, tid).Read?
       case Return(tid) => PcOf(s, tid).Got?
       case Mutate(tid, scope, after) =>
         && PcOf(s, tid).Idle?
         && forall k :: !Covers(scope, k) ==> ValueIn(after, k) == Current(s, k)
       case Invalidate(tid) => PcOf(s, tid).Written? && PcOf(s, tid).at < |s.log|
       case LoseReply(tid) => PcOf(s, tid).Written?
  }

  ghost function Apply(s: Sys, l: Label): Sys
    requires Enabled(s, l)
  {
    match l
    case StartGet(tid, k) =>
      s.(threads := s.threads[tid := if k in s.items then Got(k, s.items[k], s.done)
                                     else Missed(k, s.generation, s.total, s.done)])
    case ReadBackend(tid) =>
      var pc := PcOf(s, tid);
      s.(threads := s.threads[tid := Read(pc.k, pc.seen, pc.total, pc.started, Current(s, pc.k), |s.log| - 1)])
    case FailRead(tid) => s.(threads := s.threads[tid := Idle])
    case Publish(tid) =>
      var pc := PcOf(s, tid);
      s.(items := Published(s.items, s.generation, pc.k, pc.seen, pc.v),
         threads := s.threads[tid := Got(pc.k, pc.v, pc.started)])
    case Return(tid) => s.(threads := s.threads[tid := Idle])
    case Mutate(tid, scope, after) =>
      s.(log := s.log + [Write(scope, after)], threads := s.threads[tid := Written(|s.log|)])
    case Invalidate(tid) =>
      var at := PcOf(s, tid).at;
      s.(items := Invalidated(s.items, s.log[at].scope),
         generation := NextGeneration(s.generation),
         threads := s.threads[tid := Idle],
         done := s.done + {at},
         total := s.total + 1)
    case LoseReply(tid) =>
      s.(threads := s.threads[tid := Idle], lost := s.lost + {PcOf(s, tid).at})
  }

  /** The generation guard tells two different invalidation counts apart unless they
      differ by a multiple of 2^64; this excludes that one case at each publication. */
  ghost predicate NoWrap(s: Sys, l: Label) {
    l.Publish? && PcOf(s, l.tid).Read? && PcOf(s, l.tid).total < s.total ==>
      (s.total - PcOf(s, l.tid).total) % TWO_64 != 0
  }

  ghost predicate Init(s: Sys) {
    && s.items == map[] && s.generation == 0 && s.threads == map[] && s.total == 0
    && |s.log| == 1 && s.done == {0} && s.lost == {}
  }

  // ------------------------------------------------------------------ invariants

  /** The value is the one write `i` left for `k`, and no write to `k` after `i` has
      been invalidated yet. */
  ghost predicate UpToDate(s: Sys, k: Key, v: Value, i: nat) {
    && i < |s.log| && v == ValueAt(s.log, i, k)
    && forall j :: i < j < |s.log| && Covers(s.log[j].scope, k) ==> j !in s.done
  }

  /** The value is one the backend held for `k` no earlier than every write in `started`. */
  ghost predicate FreshSince(log: seq<Write>, k: Key, v: Value, started: set<nat>) {
    exists i :: 0 <= i < |log| && v == ValueAt(log, i, k) && NoneAfter(log, k, started, i)
  }

  ghost predicate NoneAfter(log: seq<Write>, k: Key, started: set<nat>, i: nat) {
    forall j :: i < j < |log| && Covers(log[j].scope, k) ==> j !in started
  }

  ghost predicate PcInv(s: Sys, pc: Pc) {
    match pc
    case Idle => true
    case Missed(k, seen, total, started) =>
      started <= s.done && total <= s.total && seen == total % TWO_64
    case Read(k, seen, total, started, v, at) =>
      && started <= s.done && total <= s.total && seen == total % TWO_64
      && FreshSince(s.log, k, v, started)
      && (total == s.total ==> UpToDate(s, k, v, at))
    case Got(k, v, started) => started <= s.done && FreshSince(s.log, k, v, started)
    case Written(at) => at < |s.log| && at !in s.done && at !in s.lost
  }

  /** Every write is invalidated, or lost, or has exactly one thread that is about to
      invalidate it. */
  ghost predicate WriterInv(s: Sys) {
    && (forall j :: j in s.done || j in s.lost ==> j < |s.log|)
    && (forall j :: 0 <= j < |s.log| && j !in s.done && j !in s.lost ==> exists t :: PcOf(s, t) == Written(j))
    && (forall t, u :: PcOf(s, t).Written? && PcOf(s, t) == PcOf(s, u) ==> t == u)
  }

  /** A write changes only what it covers. */
  ghost predicate LogInv(log: seq<Write>) {
    forall i, k :: 0 < i < |log| && !Covers(log[i].scope, k) ==> ValueAt(log, i, k) == ValueAt(log, i - 1, k)
  }

  ghost predicate ItemInv(s: Sys, k: Key) {
    k in s.items ==> exists i :: UpToDate(s, k, s.items[k], i)
  }

  ghost predicate Inv(s: Sys) {
    && s.log != []
    && s.generation == s.total % TWO_64
    && WriterInv(s)
    && LogInv(s.log)
    && (forall t :: PcInv(s, PcOf(s, t)))
    && (forall k :: ItemInv(s, k))
  }

  lemma FreshGrows(log: seq<Write>, w: Write, k: Key, v: Value, started: set<nat>)
    requires FreshSince(log, k, v, started) && |log| !in started
    ensures FreshSince(log + [w], k, v, started)
  {
    var i :| 0 <= i < |log| && v == ValueAt(log, i, k) && NoneAfter(log, k, started, i);
    assert v == ValueAt(log + [w], i, k) && NoneAfter(log + [w], k, started, i);
  }

  /** An up-to-date value stays so until a write that covers its key is invalidated. */
  lemma UpToDateStep(s: Sys, l: Label, k: Key, v: Value, i: nat)
    requires Inv(s) && Enabled(s, l) && UpToDate(s, k, v, i)
    requires l.Invalidate? ==> !Covers(s.log[PcOf(s, l.tid).at].scope, k)
    ensures UpToDate(Apply(s, l), k, v, i)
  {
  }

  lemma OtherPcStep(s: Sys, l: Label, t: Tid)
    requires Inv(s) && Enabled(s, l) && t != l.tid
    ensures PcInv(Apply(s, l), PcOf(Apply(s, l), t))
  {
    var pc := PcOf(s, t);
    assert PcInv(s, pc) && PcOf(Apply(s, l), t) == pc;
    if l.Mutate? && (pc.Read? || pc.Got?) {
      FreshGrows(s.log, Write(l.scope, l.after), pc.k, pc.v, pc.started);
    }
    if pc.Read? && pc.total == s.total && !l.Invalidate? {
      UpToDateStep(s, l, pc.k, pc.v, pc.at);
    }
  }

  lemma OwnPcStep(s: Sys, l: Label)
    requires Inv(s) && Enabled(s, l)
    ensures PcInv(Apply(s, l), PcOf(Apply(s, l), l.tid))
  {
    var pc, s' := PcOf(s, l.tid), Apply(s, l);
    assert PcInv(s, pc);
    if l.StartGet? && l.k in s.items {
      assert ItemInv(s, l.k);
      var i :| UpToDate(s, l.k, s.items[l.k], i);
      assert NoneAfter(s.log, l.k, s.done, i);
    } else if l.ReadBackend? {
      assert NoneAfter(s.log, pc.k, pc.started, |s.log| - 1);
      assert UpToDate(s', pc.k, Current(s, pc.k), |s.log| - 1);
    }
  }

  lemma ItemStep(s: Sys, l: Label, k: Key)
    requires Inv(s) && Enabled(s, l) && NoWrap(s, l)
    ensures ItemInv(Apply(s, l), k)
  {
    var s' := Apply(s, l);
    assert ItemInv(s, k) && PcInv(s, PcOf(s, l.tid));
    if k in s'.items {
      if l.Publish? && PcOf(s, l.tid).k == k && s.generation == PcOf(s, l.tid).seen {
        var pc := PcOf(s, l.tid);
        SameGeneration(s.total, pc.total);
        UpToDateStep(s, l, k, pc.v, pc.at);
      } else {
        var i :| UpToDate(s, k, s.items[k], i);
        UpToDateStep(s, l, k, s.items[k], i);
      }
    }
  }

  lemma SameGeneration(a: nat, b: nat)
    requires b <= a && a % TWO_64 == b % TWO_64 && (b < a ==> (a - b) % TWO_64 != 0)
    ensures a == b
  {
    assert (a - b) == TWO_64 * (a / TWO_64 - b / TWO_64);
  }

  lemma WriterStep(s: Sys, l: Label)
    requires Inv(s) && Enabled(s, l)
    ensures WriterInv(Apply(s, l))
  {
    var s' := Apply(s, l);
    assert PcInv(s, PcOf(s, l.tid));
    forall j | 0 <= j < |s'.log| && j !in s'.done && j !in s'.lost
      ensures exists t :: PcOf(s', t) == Written(j)
    {
      if l.Mutate? && j == |s.log| {
        assert PcOf(s', l.tid) == Written(j);
      } else {
        var t :| PcOf(s, t) == Written(j);
        assert PcOf(s', t) == Written(j);
      }
    }
    forall t: Tid, u: Tid | PcOf(s', t).Written? && PcOf(s', t) == PcOf(s', u) ensures t == u {
      assert PcInv(s, PcOf(s, t)) && PcInv(s, PcOf(s, u));
    }
  }

  lemma StepInv(s: Sys, l: Label)
    requires Inv(s) && Enabled(s, l) && NoWrap(s, l)
    ensures Inv(Apply(s, l))
  {
    var s' := Apply(s, l);
    WriterStep(s, l);
    forall t: Tid ensures PcInv(s', PcOf(s', t)) {
      if t == l.tid {
        OwnPcStep(s, l);
      } else {
        OtherPcStep(s, l, t);
      }
    }
    forall k: Key ensures ItemInv(s', k) {
      ItemStep(s, l, k);
    }
    LogStep(s, l);
  }

  lemma LogStep(s: Sys, l: Label)
    requires Inv(s) && Enabled(s, l)
    ensures LogInv(Apply(s, l).log)
    ensures Apply(s, l).generation == Apply(s, l).total % TWO_64
  {
    var log := Apply(s, l).log;
    forall i, k | 0 < i < |log| && !Covers(log[i].scope, k) ensures ValueAt(log, i, k) == ValueAt(log, i - 1, k) {
      if i == |s.log| {
        assert l.Mutate? && ValueIn(l.after, k) == Current(s, k);
      } else {
        assert ValueAt(s.log, i, k) == ValueAt(s.log, i - 1, k);
      }
    }
  }

  // -------------------------------------------------------------------- theorems

  ghost predicate Step(s: Sys, l: Label, s': Sys) {
    Enabled(s, l) && NoWrap(s, l) && s' == Apply(s, l)
  }

  ghost predicate StepAt(run: seq<Sys>, ls: seq<Label>, i: nat)
    requires |run| == |ls| + 1 && i < |ls|
  {
    Step(run[i], ls[i], run[i + 1])
  }

  ghost predicate Run(run: seq<Sys>, ls: seq<Label>) {
    |run| == |ls| + 1 && Init(run[0]) && forall i :: 0 <= i < |ls| ==> StepAt(run, ls, i)
  }

  lemma {:induction false} RunInv(run: seq<Sys>, ls: seq<Label>, n: nat)
    requires Run(run, ls) && n < |run|
    ensures Inv(run[n])
  {
    if n == 0 {
    } else {
      RunInv(run, ls, n - 1);
      assert StepAt(run, ls, n - 1);
      StepInv(run[n - 1], ls[n - 1]);
    }
  }

  lemma GotIsFresh(run: seq<Sys>, ls: seq<Label>, n: nat, t: Tid)
    requires Run(run, ls) && n < |run| && PcOf(run[n], t).Got?
    ensures var pc := PcOf(run[n], t); FreshSince(run[n].log, pc.k, pc.v, pc.started)
  {
    RunInv(run, ls, n);
    assert PcInv(run[n], PcOf(run[n], t));
  }

  /** Thread `t` starts a Get of `k` at step `b` and is about to return from it at `n`. */
  ghost predicate IsGet(run: seq<Sys>, ls: seq<Label>, t: Tid, k: Key, b: nat, n: nat)
    requires Run(run, ls)
  {
    && b < n < |run| && ls[b] == StartGet(t, k)
    && (forall j :: b < j < n ==> PcOf(run[j], t).Missed? || PcOf(run[j], t).Read? || PcOf(run[j], t).Got?)
    && PcOf(run[n], t).Got?
  }

  /** Step `a` ends a mutation: it invalidates write `w`. */
  ghost predicate EndsMutation(run: seq<Sys>, ls: seq<Label>, a: nat, w: nat)
    requires Run(run, ls)
  {
    a < |ls| && ls[a].Invalidate? && PcOf(run[a], ls[a].tid) == Written(w)
  }

  /** What a Get remembers of its start. */
  predicate Remembers(pc: Pc, k: Key, done: set<nat>) {
    (pc.Missed? || pc.Read? || pc.Got?) && pc.k == k && pc.started == done
  }

  lemma RemembersStep(s: Sys, l: Label, t: Tid, k: Key, done: set<nat>)
    requires Enabled(s, l) && Remembers(PcOf(s, t), k, done) && !PcOf(Apply(s, l), t).Idle?
    ensures Remembers(PcOf(Apply(s, l), t), k, done)
  {
  }

  lemma {:induction false} GetRemembers(run: seq<Sys>, ls: seq<Label>, t: Tid, k: Key, b: nat, n: nat, m: nat)
    requires Run(run, ls) && IsGet(run, ls, t, k, b, n) && b < m <= n
    ensures Remembers(PcOf(run[m], t), k, run[b].done)
  {
    assert StepAt(run, ls, m - 1);
    if m == b + 1 {
    } else {
      GetRemembers(run, ls, t, k, b, n, m - 1);
      RemembersStep(run[m - 1], ls[m - 1], t, k, run[b].done);
    }
  }

  /** Writes stay in the log and, once invalidated, stay so. */
  lemma {:induction false} HistoryGrows(run: seq<Sys>, ls: seq<Label>, i: nat, j: nat)
    requires Run(run, ls) && i <= j < |run|
    ensures run[i].done <= run[j].done && |run[i].log| <= |run[j].log|
    ensures forall w :: 0 <= w < |run[i].log| ==> run[j].log[w] == run[i].log[w]
  {
    if i == j {
    } else {
      HistoryGrows(run, ls, i, j - 1);
      assert StepAt(run, ls, j - 1);
    }
  }

  /** Freshness: a Get that starts after a mutation of its key has returned answers what
      that write, or a later one, left for the key; slow reads that finish in between
      change nothing about it. */
  lemma Freshness(run: seq<Sys>, ls: seq<Label>, a: nat, w: nat, t: Tid, k: Key, b: nat, n: nat)
    requires Run(run, ls) && EndsMutation(run, ls, a, w) && a < b && IsGet(run, ls, t, k, b, n)
    requires w < |run[a].log| && Covers(run[a].log[w].scope, k)
    ensures exists i :: w <= i < |run[n].log| && PcOf(run[n], t).v == ValueAt(run[n].log, i, k)
  {
    GotIsFresh(run, ls, n, t);
    GetRemembers(run, ls, t, k, b, n, n);
    HistoryGrows(run, ls, a, n);
    HistoryGrows(run, ls, a + 1, b);
    assert StepAt(run, ls, a);
    assert w in run[b].done;
    var pc, log := PcOf(run[n], t), run[n].log;
    var i :| 0 <= i < |log| && pc.v == ValueAt(log, i, k) && NoneAfter(log, k, pc.started, i);
    assert w <= i;
  }

  lemma {:induction false} UnchangedBetween(log: seq<Write>, k: Key, i: nat, j: nat)
    requires LogInv(log) && i <= j < |log|
    requires forall m :: i < m <= j ==> !Covers(log[m].scope, k)
    ensures ValueAt(log, i, k) == ValueAt(log, j, k)
    decreases j - i
  {
    if i == j {
    } else {
      UnchangedBetween(log, k, i, j - 1);
    }
  }

  /** Some mutation that covers `k` has written and not yet invalidated. */
  ghost predicate InFlight(s: Sys, k: Key) {
    exists t :: PcOf(s, t).Written? && PcOf(s, t).at < |s.log| && Covers(s.log[PcOf(s, t).at].scope, k)
  }

  /** Some write that covers `k` will never be invalidated. */
  ghost predicate LostFor(s: Sys, k: Key) {
    exists j :: 0 <= j < |s.log| && j in s.lost && Covers(s.log[j].scope, k)
  }

  /** Agreement: a memo entry differs from the backend only while such a mutation runs, or
      after one whose backend call took effect and reported an error. */
  lemma Agreement(run: seq<Sys>, ls: seq<Label>, n: nat, k: Key)
    requires Run(run, ls) && n < |run| && k in run[n].items
    ensures run[n].log != []
    ensures run[n].items[k] == Current(run[n], k) || InFlight(run[n], k) || LostFor(run[n], k)
  {
    RunInv(run, ls, n);
    var s := run[n];
    assert ItemInv(s, k);
    var i: nat :| UpToDate(s, k, s.items[k], i);
    if m: nat :| i < m < |s.log| && Covers(s.log[m].scope, k) {
      if m !in s.lost {
        var t :| PcOf(s, t) == Written(m);
        assert PcOf(s, t).at == m;
      }
    } else {
      UnchangedBetween(s.log, k, i, |s.log| - 1);
    }
  }

  /** While no mutation of `k` is in flight, a step changes neither what the backend
      answers for it nor what a Get has found. */
  ghost predicate Settled(s: Sys, t: Tid, k: Key, v: Value) {
    && s.log != [] && Current(s, k) == v
    && match PcOf(s, t)
       case Missed(k', _, _, _) => k' == k
       case Read(k', _, _, _, v', _) => k' == k && v' == v
       case Got(k', v', _) => k' == k && v' == v
       case _ => false
  }

  lemma SettledStep(s: Sys, l: Label, t: Tid, k: Key, v: Value)
    requires Enabled(s, l) && Settled(s, t, k, v)
    requires !InFlight(Apply(s, l), k) && !PcOf(Apply(s, l), t).Idle?
    ensures Settled(Apply(s, l), t, k, v)
  {
    var s' := Apply(s, l);
    if l.Mutate? {
      assert PcOf(s', l.tid) == Written(|s.log|) && s'.log[|s.log|] == Write(l.scope, l.after);
      assert !Covers(l.scope, k);
    }
  }

  lemma {:induction false} StaysSettled(run: seq<Sys>, ls: seq<Label>, t: Tid, k: Key, b: nat, n: nat, m: nat)
    requires Run(run, ls) && IsGet(run, ls, t, k, b, n) && b < m <= n
    requires !LostFor(run[b], k) && forall j :: b <= j <= n ==> !InFlight(run[j], k)
    ensures run[b].log != [] && Settled(run[m], t, k, Current(run[b], k))
  {
    assert StepAt(run, ls, m - 1);
    if m == b + 1 {
      if k in run[b].items {
        Agreement(run, ls, b, k);
      }
    } else {
      StaysSettled(run, ls, t, k, b, n, m - 1);
      assert !InFlight(run[m], k);
      SettledStep(run[m - 1], ls[m - 1], t, k, Current(run[b], k));
    }
  }

  /** With no mutation of its key in flight from start to return, and none lost before, a Get
      answers what a Get on the backend answers at any moment of it, whatever other threads do
      in between. */
  lemma GetAtRest(run: seq<Sys>, ls: seq<Label>, t: Tid, k: Key, b: nat, n: nat, m: nat)
    requires Run(run, ls) && IsGet(run, ls, t, k, b, n) && b <= m <= n
    requires !LostFor(run[b], k) && forall j :: b <= j <= n ==> !InFlight(run[j], k)
    ensures run[m].log != [] && PcOf(run[n], t).v == Current(run[m], k)
  {
    StaysSettled(run, ls, t, k, b, n, n);
    if m > b {
      StaysSettled(run, ls, t, k, b, n, m);
    }
  }

  // ------------------------------------------------------------------ lost mutations

  ghost predicate Quiet(s: Sys) {
    forall t :: PcOf(s, t).Idle?
  }

  /** From every state at rest that memoizes `k` as the backend has it, a mutation of `k` that
      takes effect and reports an error leaves the memo stale, at rest again. */
  lemma LostMutationLeavesStale(s: Sys, t: Tid, k: Key, after: map<Key, bytes>)
    requires s.log != [] && Quiet(s) && k in s.items && s.items[k] == Current(s, k)
    requires ValueIn(after, k) != Current(s, k) && forall j :: j != k ==> ValueIn(after, j) == Current(s, j)
    ensures var x, y := Mutate(t, Keys({k}), after), LoseReply(t);
            && Step(s, x, Apply(s, x)) && Step(Apply(s, x), y, Apply(Apply(s, x), y))
            && var s' := Apply(Apply(s, x), y);
               Quiet(s') && k in s'.items && s'.items[k] != Current(s', k) && LostFor(s', k)
  {
    var s1 := Apply(s, Mutate(t, Keys({k}), after));
    assert PcOf(s1, t) == Written(|s.log|) && Current(s1, k) == ValueIn(after, k);
    var s2 := Apply(s1, LoseReply(t));
    forall u: Tid
      ensures PcOf(s2, u).Idle?
    {
      assert PcOf(s, u).Idle?;
    }
    assert s2.log[|s.log|].scope == Keys({k}) && |s.log| in s2.lost && Covers(s2.log[|s.log|].scope, k);
  }

  /** A memoized key is answered at once, from the memo, and a mutation leaves all other keys
      memoized. */
  lemma MemoIsUsed(s: Sys, t: Tid, k: Key)
    requires s.log != [] && PcOf(s, t).Idle? && k in s.items
    ensures var s' := Apply(s, StartGet(t, k)); PcOf(s', t).Got? && PcOf(s', t).v == s.items[k]
  {
  }

  lemma OthersStayMemoized(s: Sys, t: Tid, k: Key)
    requires Enabled(s, Invalidate(t)) && k in s.items && !Covers(s.log[PcOf(s, t).at].scope, k)
    ensures var s' := Apply(s, Invalidate(t)); k in s'.items && s'.items[k] == s.items[k]
  {
  }

  /** A mutation that runs to its end is in the backend and out of the memo, whatever was there. */
  lemma MutationCompletes(s: Sys, t: Tid, k: Key, after: map<Key, bytes>)
    requires s.log != [] && PcOf(s, t).Idle? && forall j :: j != k ==> ValueIn(after, j) == Current(s, j)
    ensures var x, y := Mutate(t, Keys({k}), after), Invalidate(t);
            && Step(s, x, Apply(s, x)) && Step(Apply(s, x), y, Apply(Apply(s, x), y))
            && var s' := Apply(Apply(s, x), y);
               PcOf(s', t).Idle? && s'.log != [] && Current(s', k) == ValueIn(after, k) && k !in s'.items
  {
    var s1 := Apply(s, Mutate(t, Keys({k}), after));
    assert PcOf(s1, t) == Written(|s.log|) && s1.log[|s.log|] == Write(Keys({k}), after);
  }

  /** A read in progress can go on or fail, and one that has read can publish. */
  lemma ReadsGoOn(s: Sys, t: Tid)
    requires s.log != []
    ensures PcOf(s, t).Missed? ==> Enabled(s, ReadBackend(t)) && Enabled(s, FailRead(t))
    ensures PcOf(s, t).Read? ==> Enabled(s, Publish(t))
    ensures PcOf(s, t).Got? ==> Enabled(s, Return(t))
  {
  }

  /** Such states exist: one Get from a fresh start memoizes its key. */
  lemma GetMemoizes(s: Sys, t: Tid, k: Key) returns (run: seq<Sys>, ls: seq<Label>)
    requires Init(s)
    ensures Run(run, ls) && run[0] == s
    ensures var e := run[|ls|]; e.log != [] && Quiet(e) && k in e.items && e.items[k] == Current(e, k)
  {
    var s1 := Apply(s, StartGet(t, k));
    assert PcOf(s1, t) == Missed(k, 0, 0, {0});
    var s2 := Apply(s1, ReadBackend(t));
    assert PcOf(s2, t) == Read(k, 0, 0, {0}, Current(s, k), 0);
    var s3 := Apply(s2, Publish(t));
    assert PcOf(s3, t).Got? && s3.items == map[k := Current(s, k)];
    var s4 := Apply(s3, Return(t));
    run, ls := [s, s1, s2, s3, s4], [StartGet(t, k), ReadBackend(t), Publish(t), Return(t)];
    assert StepAt(run, ls, 0) && StepAt(run, ls, 1) && StepAt(run, ls, 2) && StepAt(run, ls, 3);
  }
}
