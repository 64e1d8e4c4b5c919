/** `Increment` and `Decrement` of the NATS store on one key: a read, a computed
    successor and a compare-and-swap, retried at most sixteen times, by any number
    of concurrent callers. A swap may take effect and report an error all the same. */
module NatsCounter {
  import opened Bytes
  import opened NatsBucket
  import ExpiringMap
  import NatsEnvelope

  type Tid = nat
  type CallId = nat

  const MAX_ATTEMPTS: nat := 16

  datatype Config = Config(bucketTTL: bool, defaultTTL: int, json: bytes -> NatsEnvelope.LegacyJson)

  /** A committed update: the call, what it added and the value it wrote and returned. */
  datatype Commit = Commit(call: CallId, delta: int, result: int)

  /** `Lost` is a call that was told of an error although its swap took effect. */
  datatype Outcome = Returned(value: int) | Lost(value: int) | Exhausted(from: nat) | Failed

  predicate TookEffect(o: Outcome, value: int) {
    o == Returned(value) || o == Lost(value)
  }

  /** `from` and `seen` are the numbers of commits at the start of the call and at its
      latest read; they play no part in the protocol. */
  datatype Pc =
    | Idle
    | AtGet(call: CallId, delta: int, ttl: int, attempt: nat, from: nat)
    | AtSwap(call: CallId, delta: int, ttl: int, attempt: nat, from: nat, next: int, revision: nat, seen: nat)

  /** `deltas` lists the calls made so far by what each adds; a call is its index. */
  datatype Sys = Sys(
    now: int,
    slot: Slot,
    last: nat,
    threads: map<Tid, Pc>,
    deltas: seq<int>,
    outcomes: map<CallId, Outcome>,
    log: seq<Commit>)

  /** `Fail` is a bucket call that errs without effect, `LoseReply` a swap whose reply is
      lost, whether it took effect or not. */
  datatype Act = Get | Swap | LoseReply | Fail

  datatype Label =
    | Advance(to: int)
    | OtherKeyWrite
    | Call(tid: Tid, delta: int, ttl: int)
    | Do(tid: Tid, act: Act)

  function PcOf(s: Sys, t: Tid): Pc {
    if t in s.threads then s.threads[t] else Idle
  }

  // ------------------------------------------------------------- the stored number

  /** The number text inside a stored body; `None` when the envelope is corrupt. */
  function RawOf(cfg: Config, body: bytes): Option<bytes> {
    if cfg.bucketTTL then Some(body)
    else match NatsEnvelope.Decode(body, cfg.json)
         case Corrupt => None
         case Plain => Some(body)
         case Wrapped(value, _) => Some(value)
  }

  predicate IsExpired(cfg: Config, slot: Slot, now: int) {
    && slot.Entry? && !cfg.bucketTTL
    && match NatsEnvelope.Decode(slot.body, cfg.json)
       case Wrapped(_, expiresAt) => NatsEnvelope.Expired(expiresAt, now)
       case _ => false
  }

  function NumberOf(raw: bytes): Option<int> {
    if raw == [] then Some(0) else ParseInt(raw)
  }

  /** The counter a slot stands for: zero when there is none. */
  function Value(cfg: Config, slot: Slot): Option<int> {
    if !slot.Entry? then Some(0)
    else match RawOf(cfg, slot.body)
         case None => None
         case Some(raw) => NumberOf(raw)
  }

  function Body(cfg: Config, next: int, expiresAt: int): bytes
    requires IsInt64(expiresAt)
  {
    if cfg.bucketTTL then FormatInt(next) else NatsEnvelope.Encode(FormatInt(next), expiresAt)
  }

  lemma BodyHoldsNumber(cfg: Config, next: int, expiresAt: int, rev: nat, written: int)
    requires IsInt64(expiresAt) && IsInt64(next)
    ensures Value(cfg, Entry(rev, Body(cfg, next, expiresAt), written)) == Some(next)
  {
    ParseFormat(next);
    if !cfg.bucketTTL {
      NatsEnvelope.RoundTrip(FormatInt(next), expiresAt, cfg.json);
    }
  }

  // -------------------------------------------------------------------- the steps

  ghost predicate CanDo(cfg: Config, s: Sys, pc: Pc, act: Act) {
    match act
    case Get => pc.AtGet?
    case Swap => pc.AtSwap? && IsInt64(ExpiringMap.Expiry(s.now, pc.ttl, cfg.defaultTTL))
    case LoseReply => pc.AtSwap? && IsInt64(ExpiringMap.Expiry(s.now, pc.ttl, cfg.defaultTTL))
    case Fail => !pc.Idle?
  }

  ghost predicate Enabled(cfg: Config, s: Sys, l: Label) {
    match l
    case Advance(to) => s.now <= to
    case OtherKeyWrite => true
    case Call(tid, delta, ttl) => PcOf(s, tid).Idle? && IsInt64(delta)
    case Do(tid, act) => CanDo(cfg, s, PcOf(s, tid), act)
  }

  /** What a step does: next program counter, bucket, commits made and, when the call
      returns, its outcome. */
  datatype Effect = Effect(pc: Pc, slot: Slot, last: nat, commits: seq<Commit>, outcome: Option<Outcome>)

  function Quit(s: Sys, outcome: Outcome): Effect {
    Effect(Idle, s.slot, s.last, [], Some(outcome))
  }

  /** The swap succeeds on a free key for revision zero, else on the revision read. */
  predicate Matches(slot: Slot, revision: nat) {
    if revision == 0 then !slot.Entry? else Rev(slot) == revision
  }

  function Swapped(cfg: Config, s: Sys, pc: Pc, outcome: Outcome): Effect
    requires pc.AtSwap? && IsInt64(ExpiringMap.Expiry(s.now, pc.ttl, cfg.defaultTTL))
  {
    Effect(Idle, Entry(s.last + 1, Body(cfg, pc.next, ExpiringMap.Expiry(s.now, pc.ttl, cfg.defaultTTL)), s.now),
           s.last + 1, [Commit(pc.call, pc.delta, pc.next)], Some(outcome))
  }

  function EffectOf(cfg: Config, s: Sys, pc: Pc, act: Act): Effect
    requires CanDo(cfg, s, pc, act)
  {
    match act
    case Get =>
      if IsExpired(cfg, s.slot, s.now) then
        Effect(AtSwap(pc.call, pc.delta, pc.ttl, pc.attempt, pc.from, Wrap64(pc.delta), 0, |s.log|),
               Marker(s.last + 1), s.last + 1, [], None)
      else
        (match Value(cfg, s.slot)
         case None => Quit(s, Failed)
         case Some(current) =>
           Effect(AtSwap(pc.call, pc.delta, pc.ttl, pc.attempt, pc.from, Wrap64(current + pc.delta),
                         if s.slot.Entry? then s.slot.rev else 0, |s.log|),
                  s.slot, s.last, [], None))
    case Swap =>
      if Matches(s.slot, pc.revision) then Swapped(cfg, s, pc, Returned(pc.next))
      else if pc.attempt + 1 < MAX_ATTEMPTS then
        Effect(AtGet(pc.call, pc.delta, pc.ttl, pc.attempt + 1, pc.from), s.slot, s.last, [], None)
      else
        Quit(s, Exhausted(pc.from))
    case LoseReply =>
      if Matches(s.slot, pc.revision) then Swapped(cfg, s, pc, Lost(pc.next)) else Quit(s, Failed)
    case Fail => Quit(s, Failed)
  }

  ghost function Apply(cfg: Config, s: Sys, l: Label): Sys
    requires Enabled(cfg, s, l)
  {
    match l
    case Advance(to) => s.(now := to)
    case OtherKeyWrite => s.(last := s.last + 1)
    case Call(tid, delta, ttl) =>
      s.(threads := s.threads[tid := AtGet(|s.deltas|, delta, ttl, 0, |s.log|)], deltas := s.deltas + [delta])
    case Do(tid, act) =>
      var pc := PcOf(s, tid);
      var e := EffectOf(cfg, s, pc, act);
      s.(slot := e.slot, last := e.last, threads := s.threads[tid := e.pc], log := s.log + e.commits,
         outcomes := if e.outcome.Some? then s.outcomes[pc.call := e.outcome.value] else s.outcomes)
  }

  /** No read meets an expired entry. */
  ghost predicate Unexpired(cfg: Config, s: Sys, l: Label) {
    l.Do? && l.act.Get? ==> !IsExpired(cfg, s.slot, s.now)
  }

  ghost predicate Init(cfg: Config, s: Sys, base: int) {
    && Value(cfg, s.slot) == Some(base) && Rev(s.slot) <= s.last && (s.slot.Entry? ==> s.slot.rev > 0)
    && s.threads == map[] && s.deltas == [] && s.outcomes == map[] && s.log == []
  }

  // ------------------------------------------------------------------- invariants

  /** The register after a sequence of commits: each adds its delta and wraps. */
  function Total(base: int, log: seq<Commit>): int {
    if log == [] then base else Wrap64(Total(base, log[..|log| - 1]) + log[|log| - 1].delta)
  }

  /** Each commit returned the register's value at its own place in the log. */
  ghost predicate Chained(base: int, log: seq<Commit>) {
    forall i :: 0 <= i < |log| ==> log[i].result == Total(base, log[..i + 1])
  }

  /** What a call knows, with `n` commits in the log. */
  ghost predicate PcInv(cfg: Config, slot: Slot, last: nat, n: nat, pc: Pc) {
    match pc
    case Idle => true
    case AtGet(call, delta, ttl, attempt, from) =>
      attempt < MAX_ATTEMPTS && from + attempt <= n
    case AtSwap(call, delta, ttl, attempt, from, next, revision, seen) =>
      && attempt < MAX_ATTEMPTS && from + attempt <= seen <= n
      && IsInt64(next) && revision <= last
      && (seen == n ==> Matches(slot, revision))
      && (Matches(slot, revision) ==> Some(next) == Plus(Value(cfg, slot), delta))
  }

  function Plus(v: Option<int>, delta: int): Option<int> {
    if v.Some? then Some(Wrap64(v.value + delta)) else None
  }

  predicate Running(s: Sys, t: Tid, call: CallId) {
    !PcOf(s, t).Idle? && PcOf(s, t).call == call
  }

  /** A call runs in one thread and has no outcome while it does. */
  ghost predicate RunningInv(s: Sys) {
    && (forall t, call: CallId :: Running(s, t, call) ==>
          call < |s.deltas| && s.deltas[call] == PcOf(s, t).delta && call !in s.outcomes)
    && (forall t, u, call: CallId :: Running(s, t, call) && Running(s, u, call) ==> t == u)
    && (forall call :: call in s.outcomes ==> call < |s.deltas|)
  }

  ghost predicate Committed(s: Sys, call: CallId, i: nat) {
    && i < |s.log| && s.log[i].call == call
    && call in s.outcomes && TookEffect(s.outcomes[call], s.log[i].result)
    && call < |s.deltas| && s.deltas[call] == s.log[i].delta
  }

  predicate Effective(o: Outcome) {
    o.Returned? || o.Lost?
  }

  /** The log holds exactly the calls that took effect, each once, with the value written. */
  ghost predicate LogInv(s: Sys) {
    && (forall i :: 0 <= i < |s.log| ==> Committed(s, s.log[i].call, i))
    && (forall call :: call in s.outcomes && Effective(s.outcomes[call]) ==> exists i :: Committed(s, call, i))
    && (forall i, j :: 0 <= i < j < |s.log| ==> s.log[i].call != s.log[j].call)
  }

  /** A call gives up only after sixteen commits by others since it began. */
  ghost predicate ProgressInv(s: Sys) {
    forall call :: call in s.outcomes && s.outcomes[call].Exhausted? ==> s.outcomes[call].from + MAX_ATTEMPTS <= |s.log|
  }

  ghost predicate SlotInv(s: Sys) {
    Rev(s.slot) <= s.last && (s.slot.Entry? ==> s.slot.rev > 0)
  }

  ghost predicate ValueInv(cfg: Config, base: int, slot: Slot, log: seq<Commit>) {
    Value(cfg, slot) == Some(Total(base, log)) && Chained(base, log)
  }

  ghost predicate Inv(cfg: Config, s: Sys, base: int) {
    && SlotInv(s) && ValueInv(cfg, base, s.slot, s.log)
    && (forall t :: PcInv(cfg, s.slot, s.last, |s.log|, PcOf(s, t)))
    && RunningInv(s) && LogInv(s) && ProgressInv(s)
  }

  lemma TotalAppend(base: int, log: seq<Commit>, c: Commit)
    requires Chained(base, log) && c.result == Wrap64(Total(base, log) + c.delta)
    ensures Chained(base, log + [c]) && c.result == Total(base, log + [c])
  {
    var longer := log + [c];
    assert longer[..|longer| - 1] == log && longer[..|longer|] == longer;
    forall i | 0 <= i < |longer| ensures longer[i].result == Total(base, longer[..i + 1]) {
      if i < |log| {
        assert longer[..i + 1] == log[..i + 1];
      }
    }
  }

  lemma ValueStep(cfg: Config, base: int, before: Option<int>, after: Slot, log: seq<Commit>, c: Commit)
    requires before == Some(Total(base, log)) && Chained(base, log)
    requires Some(c.result) == Plus(before, c.delta) && Value(cfg, after) == Some(c.result)
    ensures ValueInv(cfg, base, after, log + [c])
  {
    TotalAppend(base, log, c);
  }

  lemma OwnPcStep(cfg: Config, s: Sys, pc: Pc, act: Act)
    requires SlotInv(s)
    requires PcInv(cfg, s.slot, s.last, |s.log|, pc) && CanDo(cfg, s, pc, act)
              && (act.Get? ==> !IsExpired(cfg, s.slot, s.now))
    ensures var e := EffectOf(cfg, s, pc, act);
            && PcInv(cfg, e.slot, e.last, |s.log + e.commits|, e.pc)
            && (e.outcome.Some? && e.outcome.value.Exhausted? ==> e.outcome.value.from + MAX_ATTEMPTS <= |s.log|)
  {
  }

  /** Another call's step either leaves the bucket and the log as they were or commits. */
  lemma OtherPcStep(cfg: Config, s: Sys, other: Pc, act: Act, pc: Pc)
    requires SlotInv(s)
    requires PcInv(cfg, s.slot, s.last, |s.log|, pc) && CanDo(cfg, s, other, act)
              && (act.Get? ==> !IsExpired(cfg, s.slot, s.now))
    ensures var e := EffectOf(cfg, s, other, act);
            PcInv(cfg, e.slot, e.last, |s.log + e.commits|, pc)
  {
  }

  lemma RunningStep(cfg: Config, s: Sys, l: Label)
    requires RunningInv(s) && Enabled(cfg, s, l)
    ensures RunningInv(Apply(cfg, s, l))
  {
    var s' := Apply(cfg, s, l);
    if l.Do? {
      assert Running(s, l.tid, PcOf(s, l.tid).call);
    }
    assert forall t, call: CallId :: Running(s', t, call) ==>
        Running(s, t, call) || (l.Call? && l.tid == t && call == |s.deltas|);
  }

  lemma LogStep(cfg: Config, s: Sys, tid: Tid, act: Act)
    requires LogInv(s) && RunningInv(s) && CanDo(cfg, s, PcOf(s, tid), act)
    ensures LogInv(Apply(cfg, s, Do(tid, act)))
  {
    var pc, s' := PcOf(s, tid), Apply(cfg, s, Do(tid, act));
    var e := EffectOf(cfg, s, pc, act);
    assert Running(s, tid, pc.call);
    forall i | 0 <= i < |s'.log| ensures Committed(s', s'.log[i].call, i) {
      if i < |s.log| {
        assert Committed(s, s.log[i].call, i);
      }
    }
    forall call | call in s'.outcomes && Effective(s'.outcomes[call]) ensures exists i :: Committed(s', call, i) {
      if call in s.outcomes && Effective(s.outcomes[call]) {
        var i :| Committed(s, call, i);
        assert Committed(s', call, i);
      } else {
        assert Committed(s', call, |s.log|);
      }
    }
    forall i, j | 0 <= i < j < |s'.log| ensures s'.log[i].call != s'.log[j].call {
      assert Committed(s, s.log[i].call, i);
    }
  }

  lemma PcsStep(cfg: Config, s: Sys, tid: Tid, act: Act)
    requires SlotInv(s) && (forall t :: PcInv(cfg, s.slot, s.last, |s.log|, PcOf(s, t)))
    requires CanDo(cfg, s, PcOf(s, tid), act) && Unexpired(cfg, s, Do(tid, act))
    ensures var s' := Apply(cfg, s, Do(tid, act));
            forall t :: PcInv(cfg, s'.slot, s'.last, |s'.log|, PcOf(s', t))
  {
    var pc, s' := PcOf(s, tid), Apply(cfg, s, Do(tid, act));
    OwnPcStep(cfg, s, pc, act);
    forall t: Tid ensures PcInv(cfg, s'.slot, s'.last, |s'.log|, PcOf(s', t)) {
      if t != tid {
        OtherPcStep(cfg, s, pc, act, PcOf(s, t));
      }
    }
  }

  lemma SwappedValue(cfg: Config, s: Sys, pc: Pc, outcome: Outcome, base: int)
    requires ValueInv(cfg, base, s.slot, s.log) && pc.AtSwap? && IsInt64(pc.next)
    requires IsInt64(ExpiringMap.Expiry(s.now, pc.ttl, cfg.defaultTTL))
    requires Some(pc.next) == Plus(Value(cfg, s.slot), pc.delta)
    ensures var e := Swapped(cfg, s, pc, outcome); ValueInv(cfg, base, e.slot, s.log + e.commits)
  {
    BodyHoldsNumber(cfg, pc.next, ExpiringMap.Expiry(s.now, pc.ttl, cfg.defaultTTL), s.last + 1, s.now);
    ValueStep(cfg, base, Value(cfg, s.slot), Swapped(cfg, s, pc, outcome).slot, s.log,
              Commit(pc.call, pc.delta, pc.next));
  }

  lemma SwapStep(cfg: Config, s: Sys, tid: Tid, act: Act, base: int)
    requires SlotInv(s) && ValueInv(cfg, base, s.slot, s.log) && PcInv(cfg, s.slot, s.last, |s.log|, PcOf(s, tid))
    requires CanDo(cfg, s, PcOf(s, tid), act) && Unexpired(cfg, s, Do(tid, act))
    ensures var s' := Apply(cfg, s, Do(tid, act)); SlotInv(s') && ValueInv(cfg, base, s'.slot, s'.log)
  {
    var pc := PcOf(s, tid);
    if (act.Swap? || act.LoseReply?) && Matches(s.slot, pc.revision) {
      var outcome := if act.Swap? then Returned(pc.next) else Lost(pc.next);
      SwappedValue(cfg, s, pc, outcome, base);
      assert EffectOf(cfg, s, pc, act) == Swapped(cfg, s, pc, outcome);
    } else {
      var s' := Apply(cfg, s, Do(tid, act));
      assert s'.log == s.log && s'.slot == s.slot;
    }
  }

  lemma ProgressStep(cfg: Config, s: Sys, tid: Tid, act: Act)
    requires SlotInv(s) && ProgressInv(s) && PcInv(cfg, s.slot, s.last, |s.log|, PcOf(s, tid))
    requires CanDo(cfg, s, PcOf(s, tid), act) && Unexpired(cfg, s, Do(tid, act))
    ensures ProgressInv(Apply(cfg, s, Do(tid, act)))
  {
    OwnPcStep(cfg, s, PcOf(s, tid), act);
  }

  lemma DoInv(cfg: Config, s: Sys, tid: Tid, act: Act, base: int)
    requires Inv(cfg, s, base) && CanDo(cfg, s, PcOf(s, tid), act) && Unexpired(cfg, s, Do(tid, act))
    ensures Inv(cfg, Apply(cfg, s, Do(tid, act)), base)
  {
    SwapStep(cfg, s, tid, act, base);
    PcsStep(cfg, s, tid, act);
    RunningStep(cfg, s, Do(tid, act));
    LogStep(cfg, s, tid, act);
    ProgressStep(cfg, s, tid, act);
  }

  /** Steps that make no bucket call on the key: the clock, other keys, a new call. */
  lemma QuietInv(cfg: Config, s: Sys, l: Label, base: int)
    requires Inv(cfg, s, base) && Enabled(cfg, s, l) && !l.Do?
    ensures Inv(cfg, Apply(cfg, s, l), base)
  {
    var s' := Apply(cfg, s, l);
    RunningStep(cfg, s, l);
    forall t: Tid
      ensures PcInv(cfg, s'.slot, s'.last, |s'.log|, PcOf(s', t))
    {
      assert PcInv(cfg, s.slot, s.last, |s.log|, PcOf(s, t));
    }
    assert LogInv(s') by {
      assert forall call: CallId, i: nat :: Committed(s, call, i) ==> Committed(s', call, i);
    }
  }

  lemma StepInv(cfg: Config, s: Sys, l: Label, base: int)
    requires Inv(cfg, s, base) && Enabled(cfg, s, l) && Unexpired(cfg, s, l)
    ensures Inv(cfg, Apply(cfg, s, l), base)
  {
    if l.Do? {
      DoInv(cfg, s, l.tid, l.act, base);
    } else {
      QuietInv(cfg, s, l, base);
    }
  }

  // --------------------------------------------------------------------- theorems

  ghost predicate StepAt(cfg: Config, run: seq<Sys>, ls: seq<Label>, i: nat)
    requires |run| == |ls| + 1 && i < |ls|
  {
    Enabled(cfg, run[i], ls[i]) && Unexpired(cfg, run[i], ls[i]) && run[i + 1] == Apply(cfg, run[i], ls[i])
  }

  ghost predicate Run(cfg: Config, run: seq<Sys>, ls: seq<Label>, base: int) {
    |run| == |ls| + 1 && Init(cfg, run[0], base) && forall i :: 0 <= i < |ls| ==> StepAt(cfg, run, ls, i)
  }

  lemma {:induction false} RunInv(cfg: Config, run: seq<Sys>, ls: seq<Label>, base: int, n: nat)
    requires Run(cfg, run, ls, base) && n < |run|
    ensures Inv(cfg, run[n], base)
  {
    if n == 0 {
    } else {
      RunInv(cfg, run, ls, base, n - 1);
      assert StepAt(cfg, run, ls, n - 1);
      StepInv(cfg, run[n - 1], ls[n - 1], base);
    }
  }

  function Sum(log: seq<Commit>): int {
    if log == [] then 0 else Sum(log[..|log| - 1]) + log[|log| - 1].delta
  }

  lemma {:induction false} TotalIsWrappedSum(base: int, log: seq<Commit>)
    requires IsInt64(base)
    ensures Total(base, log) == Wrap64(base + Sum(log))
  {
    if log == [] {
    } else {
      var shorter := log[..|log| - 1];
      TotalIsWrappedSum(base, shorter);
      Wrap64Adds(base + Sum(shorter), log[|log| - 1].delta);
    }
  }

  ghost predicate PrefixSums(base: int, log: seq<Commit>) {
    forall i :: 0 <= i < |log| ==> log[i].result == Wrap64(base + Sum(log[..i + 1]))
  }

  lemma ChainedIsPrefixSums(base: int, log: seq<Commit>)
    requires IsInt64(base) && Chained(base, log)
    ensures PrefixSums(base, log)
  {
    forall i | 0 <= i < |log|
      ensures log[i].result == Wrap64(base + Sum(log[..i + 1]))
    {
      TotalIsWrappedSum(base, log[..i + 1]);
    }
  }

  lemma ValueFits(cfg: Config, slot: Slot)
    ensures Value(cfg, slot).Some? ==> IsInt64(Value(cfg, slot).value)
  {
  }

  lemma BaseFits(cfg: Config, run: seq<Sys>, ls: seq<Label>, base: int)
    requires Run(cfg, run, ls, base)
    ensures IsInt64(base)
  {
    ValueFits(cfg, run[0].slot);
  }

  lemma RunTotal(cfg: Config, run: seq<Sys>, ls: seq<Label>, base: int, n: nat)
    requires Run(cfg, run, ls, base) && n < |run|
    ensures Value(cfg, run[n].slot) == Some(Total(base, run[n].log))
  {
    RunInv(cfg, run, ls, base, n);
  }

  /** The stored number is the initial one plus the deltas of the log, modulo 2^64. */
  lemma StoredSum(cfg: Config, run: seq<Sys>, ls: seq<Label>, base: int, n: nat)
    requires Run(cfg, run, ls, base) && n < |run|
    ensures Value(cfg, run[n].slot) == Some(Wrap64(base + Sum(run[n].log)))
  {
    BaseFits(cfg, run, ls, base);
    RunTotal(cfg, run, ls, base, n);
    TotalIsWrappedSum(base, run[n].log);
  }

  /** The log holds exactly the calls that took effect, each once: those that returned a
      value and those whose reply was lost. The stored number is the initial one plus their
      deltas modulo 2^64, and each wrote the sum up to and including its own commit. */
  lemma NoLostUpdates(cfg: Config, run: seq<Sys>, ls: seq<Label>, base: int, n: nat)
    requires Run(cfg, run, ls, base) && n < |run|
    ensures LogInv(run[n])
    ensures Value(cfg, run[n].slot) == Some(Wrap64(base + Sum(run[n].log)))
    ensures PrefixSums(base, run[n].log)
  {
    StoredSum(cfg, run, ls, base, n);
    RunInv(cfg, run, ls, base, n);
    BaseFits(cfg, run, ls, base);
    ChainedIsPrefixSums(base, run[n].log);
  }

  // --------------------------------------------------- what the callers were told of

  predicate Succeeded(outcomes: map<CallId, Outcome>, c: Commit) {
    c.call in outcomes && outcomes[c.call].Returned?
  }

  /** The deltas of the commits whose calls succeeded, or of those whose did not. */
  function SumOf(outcomes: map<CallId, Outcome>, log: seq<Commit>, success: bool): int {
    if log == [] then 0
    else
      var last := log[|log| - 1];
      SumOf(outcomes, log[..|log| - 1], success) + if Succeeded(outcomes, last) == success then last.delta else 0
  }

  lemma {:induction false} SumSplits(outcomes: map<CallId, Outcome>, log: seq<Commit>)
    ensures Sum(log) == SumOf(outcomes, log, true) + SumOf(outcomes, log, false)
  {
    if log == [] {
    } else {
      SumSplits(outcomes, log[..|log| - 1]);
    }
  }

  lemma WrapEqual(a: int, b: int)
    ensures Wrap64(a) == Wrap64(b) <==> (b - a) % TWO_64 == 0
  {
    var p, q := (a + TWO_63) / TWO_64, (b + TWO_63) / TWO_64;
    assert a == Wrap64(a) + p * TWO_64 && b == Wrap64(b) + q * TWO_64;
    if Wrap64(a) == Wrap64(b) {
      assert b - a == (q - p) * TWO_64;
    }
    if (b - a) % TWO_64 == 0 {
      assert b - a == (b - a) / TWO_64 * TWO_64;
      assert b + TWO_63 == (a + TWO_63) + (b - a) / TWO_64 * TWO_64;
    }
  }

  lemma ExactWhen(v: Option<int>, base: int, outcomes: map<CallId, Outcome>, log: seq<Commit>)
    requires v == Some(Wrap64(base + Sum(log)))
    ensures v == Some(Wrap64(base + SumOf(outcomes, log, true))) <==> SumOf(outcomes, log, false) % TWO_64 == 0
  {
    SumSplits(outcomes, log);
    WrapEqual(base + SumOf(outcomes, log, true), base + Sum(log));
  }

  /** The stored number is the initial one plus the deltas of exactly the calls that
      succeeded if and only if the updates whose replies were lost cancel out. */
  lemma SuccessesExactly(cfg: Config, run: seq<Sys>, ls: seq<Label>, base: int, n: nat)
    requires Run(cfg, run, ls, base) && n < |run|
    ensures var s := run[n];
            Value(cfg, s.slot) == Some(Wrap64(base + SumOf(s.outcomes, s.log, true)))
            <==> SumOf(s.outcomes, s.log, false) % TWO_64 == 0
  {
    var v := Value(cfg, run[n].slot);
    assert v == Some(Wrap64(base + Sum(run[n].log))) by {
      StoredSum(cfg, run, ls, base, n);
    }
    ExactWhen(v, base, run[n].outcomes, run[n].log);
  }

  /** A run in which no reply is lost has no such updates. */
  lemma {:induction false} NothingLost(outcomes: map<CallId, Outcome>, log: seq<Commit>)
    requires forall i :: 0 <= i < |log| ==> Succeeded(outcomes, log[i])
    ensures SumOf(outcomes, log, false) == 0
  {
    if log == [] {
    } else {
      NothingLost(outcomes, log[..|log| - 1]);
    }
  }

  ghost predicate RepliesArrive(ls: seq<Label>) {
    forall i :: 0 <= i < |ls| && ls[i].Do? ==> !ls[i].act.LoseReply?
  }

  lemma {:induction false} NoneLost(cfg: Config, run: seq<Sys>, ls: seq<Label>, base: int, n: nat)
    requires Run(cfg, run, ls, base) && n < |run| && RepliesArrive(ls)
    ensures forall call :: call in run[n].outcomes ==> !run[n].outcomes[call].Lost?
  {
    if n == 0 {
    } else {
      NoneLost(cfg, run, ls, base, n - 1);
      assert StepAt(cfg, run, ls, n - 1);
      var s, l := run[n - 1], ls[n - 1];
      if l.Do? {
        assert !l.act.LoseReply?;
        assert EffectOf(cfg, s, PcOf(s, l.tid), l.act).outcome != None ==>
            !EffectOf(cfg, s, PcOf(s, l.tid), l.act).outcome.value.Lost?;
      }
    }
  }

  /** While every reply arrives, the plain claim holds: the stored number is the initial one
      plus the deltas of exactly the calls that succeeded. */
  lemma RepliesMakeItExact(cfg: Config, run: seq<Sys>, ls: seq<Label>, base: int, n: nat)
    requires Run(cfg, run, ls, base) && n < |run| && RepliesArrive(ls)
    ensures var s := run[n]; Value(cfg, s.slot) == Some(Wrap64(base + SumOf(s.outcomes, s.log, true)))
  {
    var s := run[n];
    NoLostUpdates(cfg, run, ls, base, n);
    NoneLost(cfg, run, ls, base, n);
    forall i | 0 <= i < |s.log|
      ensures Succeeded(s.outcomes, s.log[i])
    {
      assert Committed(s, s.log[i].call, i);
    }
    NothingLost(s.outcomes, s.log);
    SuccessesExactly(cfg, run, ls, base, n);
  }

  lemma CallStep(cfg: Config, s: Sys, tid: Tid, delta: int)
    requires Init(cfg, s, 0) && s.slot.Absent? && IsInt64(delta)
    ensures var s' := Apply(cfg, s, Call(tid, delta, 1));
            && Enabled(cfg, s, Call(tid, delta, 1)) && s' == s.(threads := s'.threads, deltas := [delta])
            && PcOf(s', tid) == AtGet(0, delta, 1, 0, 0)
  {
  }

  lemma GetStep(cfg: Config, s: Sys, tid: Tid, delta: int)
    requires PcOf(s, tid) == AtGet(0, delta, 1, 0, 0) && s.slot.Absent? && IsInt64(delta) && s.log == []
    ensures var s' := Apply(cfg, s, Do(tid, Get));
            && s' == s.(threads := s'.threads) && PcOf(s', tid) == AtSwap(0, delta, 1, 0, 0, delta, 0, 0)
  {
  }

  lemma LostStep(cfg: Config, s: Sys, tid: Tid, delta: int, expiry: int)
    requires PcOf(s, tid) == AtSwap(0, delta, 1, 0, 0, delta, 0, 0) && s.slot.Absent?
    requires s.log == [] && s.outcomes == map[] && expiry == ExpiringMap.Expiry(s.now, 1, cfg.defaultTTL)
              && IsInt64(expiry)
    ensures var s' := Apply(cfg, s, Do(tid, LoseReply));
            && s'.slot == Entry(s.last + 1, Body(cfg, delta, expiry), s.now)
            && s'.log == [Commit(0, delta, delta)] && s'.outcomes == map[0 := Lost(delta)]
  {
  }

  lemma OneLost(delta: int)
    ensures SumOf(map[0 := Lost(delta)], [Commit(0, delta, delta)], true) == 0
  {
    var log := [Commit(0, delta, delta)];
    assert log[..0] == [];
    assert SumOf(map[0 := Lost(delta)], [], true) == 0;
  }

  lemma LostRun(cfg: Config, s: Sys, tid: Tid, delta: int, expiry: int) returns (run: seq<Sys>, ls: seq<Label>)
    requires Init(cfg, s, 0) && s.slot.Absent? && IsInt64(delta)
    requires expiry == ExpiringMap.Expiry(s.now, 1, cfg.defaultTTL) && IsInt64(expiry)
    ensures Run(cfg, run, ls, 0) && run[0] == s
    ensures var e := run[|ls|];
            && e.slot == Entry(s.last + 1, Body(cfg, delta, expiry), s.now)
            && e.log == [Commit(0, delta, delta)] && e.outcomes == map[0 := Lost(delta)]
  {
    var x, y, z := Call(tid, delta, 1), Do(tid, Get), Do(tid, LoseReply);
    CallStep(cfg, s, tid, delta);
    var s1 := Apply(cfg, s, x);
    GetStep(cfg, s1, tid, delta);
    var s2 := Apply(cfg, s1, y);
    LostStep(cfg, s2, tid, delta, expiry);
    run, ls := [s, s1, s2, Apply(cfg, s2, z)], [x, y, z];
    assert StepAt(cfg, run, ls, 0) && StepAt(cfg, run, ls, 1) && StepAt(cfg, run, ls, 2);
  }

  /** From a free key, one call whose only reply is lost: the caller is told of an error and
      the counter has moved all the same. */
  lemma LostReplyCounts(cfg: Config, s: Sys, tid: Tid, delta: int) returns (run: seq<Sys>, ls: seq<Label>)
    requires Init(cfg, s, 0) && s.slot.Absent? && IsInt64(delta) && delta != 0
    requires IsInt64(ExpiringMap.Expiry(s.now, 1, cfg.defaultTTL))
    ensures Run(cfg, run, ls, 0) && run[0] == s
    ensures var e := run[|ls|];
            && Value(cfg, e.slot) == Some(delta) && SumOf(e.outcomes, e.log, true) == 0
            && (forall call :: call in e.outcomes ==> !e.outcomes[call].Returned?)
  {
    var expiry := ExpiringMap.Expiry(s.now, 1, cfg.defaultTTL);
    run, ls := LostRun(cfg, s, tid, delta, expiry);
    BodyHoldsNumber(cfg, delta, expiry, s.last + 1, s.now);
    OneLost(delta);
  }

  // ------------------------------------------------------------ calls, undisturbed

  /** What an undisturbed call answers and leaves: read and swapped with nothing in between. */
  function ReadThenSwap(cfg: Config, s: Sys, pc: Pc): (Slot, Option<Outcome>)
    requires pc.AtGet? && IsInt64(ExpiringMap.Expiry(s.now, pc.ttl, cfg.defaultTTL))
  {
    var e := EffectOf(cfg, s, pc, Get);
    if e.pc.Idle? then (e.slot, e.outcome)
    else
      var f := EffectOf(cfg, s.(slot := e.slot, last := e.last), e.pc, Swap);
      (f.slot, f.outcome)
  }

  /** The number before the call: zero for a free or expired key. */
  function Before(cfg: Config, s: Sys): Option<int> {
    if IsExpired(cfg, s.slot, s.now) then Some(0) else Value(cfg, s.slot)
  }

  /** An undisturbed Increment of a number returns the wrapped sum, stored with a fresh
      stamp... */
  lemma IncrementAlone(cfg: Config, s: Sys, pc: Pc, n: int, expiry: int)
    requires SlotInv(s) && pc.AtGet? && Before(cfg, s) == Some(n)
    requires expiry == s.now + (if pc.ttl > 0 then pc.ttl else cfg.defaultTTL) && IsInt64(expiry)
    ensures ReadThenSwap(cfg, s, pc).1 == Some(Returned(Wrap64(n + pc.delta)))
    ensures var slot := ReadThenSwap(cfg, s, pc).0;
            slot == Entry(Rev(slot), Body(cfg, Wrap64(n + pc.delta), expiry), s.now)
  {
    GetEffect(cfg, s, pc, n);
    var e := EffectOf(cfg, s, pc, Get);
    SwapEffect(cfg, s.(slot := e.slot, last := e.last), e.pc, expiry);
  }

  /** ...and of anything else it fails and leaves the bucket alone. */
  lemma IncrementOfOther(cfg: Config, s: Sys, pc: Pc)
    requires pc.AtGet? && Before(cfg, s) == None
    requires IsInt64(ExpiringMap.Expiry(s.now, pc.ttl, cfg.defaultTTL))
    ensures ReadThenSwap(cfg, s, pc) == (s.slot, Some(Failed))
  {
  }

  /** What the read sets out to write. */
  lemma GetEffect(cfg: Config, s: Sys, pc: Pc, n: int)
    requires SlotInv(s) && pc.AtGet? && Before(cfg, s) == Some(n)
    ensures var e := EffectOf(cfg, s, pc, Get);
            && e.pc.AtSwap? && e.pc.next == Wrap64(n + pc.delta) && e.pc.ttl == pc.ttl
            && Matches(e.slot, e.pc.revision)
  {
  }

  lemma SwapEffect(cfg: Config, s: Sys, pc: Pc, expiry: int)
    requires pc.AtSwap? && Matches(s.slot, pc.revision)
    requires expiry == ExpiringMap.Expiry(s.now, pc.ttl, cfg.defaultTTL) && IsInt64(expiry)
    ensures var e := EffectOf(cfg, s, pc, Swap);
            e.outcome == Some(Returned(pc.next)) && e.slot == Entry(s.last + 1, Body(cfg, pc.next, expiry), s.now)
  {
  }

  /** What is stored: decimal text, in an envelope with the stamp unless the bucket has its own
      TTL. */
  lemma BodyMeans(cfg: Config, next: int, expiresAt: int)
    requires IsInt64(next) && IsInt64(expiresAt)
    ensures var body := Body(cfg, next, expiresAt);
            if cfg.bucketTTL then ParseInt(body) == Some(next)
            else NatsEnvelope.Decode(body, cfg.json) == NatsEnvelope.Wrapped(FormatInt(next), expiresAt)
  {
    ParseFormat(next);
    NatsEnvelope.RoundTrip(FormatInt(next), expiresAt, cfg.json);
  }

  /** What counts as a number: nothing stored, empty text, or decimal text, with or without an
      envelope. */
  lemma ValueMeans(cfg: Config, slot: Slot, n: int)
    ensures Value(cfg, slot) == Some(n) <==>
              if !slot.Entry? then n == 0
              else exists raw :: Unwraps(cfg, slot.body, raw) && if raw == [] then n == 0 else ParseInt(raw) == Some(n)
  {
    if slot.Entry? && RawOf(cfg, slot.body).Some? {
      assert Unwraps(cfg, slot.body, RawOf(cfg, slot.body).value);
    }
  }

  ghost predicate Unwraps(cfg: Config, body: bytes, raw: bytes) {
    if cfg.bucketTTL then raw == body
    else match NatsEnvelope.Decode(body, cfg.json)
         case Corrupt => false
         case Plain => raw == body
         case Wrapped(value, _) => raw == value
  }

  /** A call in progress can always fail, and then leaves the bucket alone; a lost reply is
      reported as an error and does what the swap would have done. */
  lemma ErrorsAreAnswered(cfg: Config, s: Sys, pc: Pc)
    requires !pc.Idle?
    ensures CanDo(cfg, s, pc, Fail) && EffectOf(cfg, s, pc, Fail) == Effect(Idle, s.slot, s.last, [], Some(Failed))
    ensures CanDo(cfg, s, pc, LoseReply) ==>
              && CanDo(cfg, s, pc, Swap)
              && EffectOf(cfg, s, pc, LoseReply).slot == EffectOf(cfg, s, pc, Swap).slot
              && EffectOf(cfg, s, pc, LoseReply).outcome.Some?
              && !EffectOf(cfg, s, pc, LoseReply).outcome.value.Returned?
  {
  }

  /** Where no bucket call errs, a call over a counter succeeds or uses up its attempts. */
  ghost predicate CallsSucceed(ls: seq<Label>) {
    forall i :: 0 <= i < |ls| && ls[i].Do? ==> ls[i].act.Get? || ls[i].act.Swap?
  }

  lemma {:induction false} NoSpuriousFailure(cfg: Config, run: seq<Sys>, ls: seq<Label>, base: int, n: nat,
                                             call: CallId)
    requires Run(cfg, run, ls, base) && n < |run| && CallsSucceed(ls)
    ensures call in run[n].outcomes ==> run[n].outcomes[call].Returned? || run[n].outcomes[call].Exhausted?
    ensures call in run[n].outcomes && run[n].outcomes[call].Exhausted? ==>
              AttemptCount(run, ls, call, n) == MAX_ATTEMPTS
  {
    if n == 0 {
    } else {
      NoSpuriousFailure(cfg, run, ls, base, n - 1, call);
      RunInv(cfg, run, ls, base, n - 1);
      RunAttempts(cfg, run, ls, base, n - 1, call);
      assert StepAt(cfg, run, ls, n - 1);
      FailureStep(cfg, run[n - 1], ls[n - 1], base, call, AttemptCount(run, ls, call, n - 1));
    }
  }

  lemma FailureStep(cfg: Config, s: Sys, l: Label, base: int, call: CallId, count: nat)
    requires Inv(cfg, s, base) && Enabled(cfg, s, l) && Unexpired(cfg, s, l) && AttemptsCounted(s, call, count)
    requires l.Do? ==> l.act.Get? || l.act.Swap?
    requires call in s.outcomes ==> s.outcomes[call].Returned? || (s.outcomes[call].Exhausted? && count == 16)
    ensures var s' := Apply(cfg, s, l);
            call in s'.outcomes ==>
              || s'.outcomes[call].Returned?
              || (s'.outcomes[call].Exhausted? && count + (if Attempts(s, l, call) then 1 else 0) == 16)
  {
    if l.Do? {
      var pc := PcOf(s, l.tid);
      assert Running(s, l.tid, pc.call);
      assert PcInv(cfg, s.slot, s.last, |s.log|, pc);
    }
  }

  // --------------------------------------------------------------------- progress

  /** Step `i` is a swap attempt of `call`. */
  predicate Attempts(s: Sys, l: Label, call: CallId) {
    l.Do? && (l.act.Swap? || l.act.LoseReply?) && PcOf(s, l.tid).AtSwap? && PcOf(s, l.tid).call == call
  }

  function AttemptCount(run: seq<Sys>, ls: seq<Label>, call: CallId, n: nat): nat
    requires n <= |ls| && n < |run|
  {
    if n == 0 then 0
    else AttemptCount(run, ls, call, n - 1) + if Attempts(run[n - 1], ls[n - 1], call) then 1 else 0
  }

  /** A running call has made as many attempts as its counter says; a call not yet made, none. */
  ghost predicate AttemptsCounted(s: Sys, call: CallId, count: nat) {
    && count <= MAX_ATTEMPTS
    && (call >= |s.deltas| ==> count == 0)
    && (forall t :: Running(s, t, call) ==> count == PcOf(s, t).attempt)
  }

  lemma AttemptsStep(cfg: Config, s: Sys, l: Label, base: int, call: CallId, count: nat)
    requires Inv(cfg, s, base) && Enabled(cfg, s, l) && Unexpired(cfg, s, l) && AttemptsCounted(s, call, count)
    ensures AttemptsCounted(Apply(cfg, s, l), call, count + if Attempts(s, l, call) then 1 else 0)
  {
    var s' := Apply(cfg, s, l);
    if l.Do? {
      assert PcInv(cfg, s.slot, s.last, |s.log|, PcOf(s, l.tid));
      assert Running(s, l.tid, PcOf(s, l.tid).call);
    }
    forall t: Tid | Running(s', t, call)
      ensures PcOf(s', t).attempt == count + if Attempts(s, l, call) then 1 else 0
    {
      if !((l.Do? || l.Call?) && l.tid == t) {
        assert Running(s, t, call);
      }
    }
  }

  lemma {:induction false} RunAttempts(cfg: Config, run: seq<Sys>, ls: seq<Label>, base: int, n: nat, call: CallId)
    requires Run(cfg, run, ls, base) && n < |run|
    ensures AttemptsCounted(run[n], call, AttemptCount(run, ls, call, n))
  {
    if n == 0 {
    } else {
      RunAttempts(cfg, run, ls, base, n - 1, call);
      RunInv(cfg, run, ls, base, n - 1);
      assert StepAt(cfg, run, ls, n - 1);
      AttemptsStep(cfg, run[n - 1], ls[n - 1], base, call, AttemptCount(run, ls, call, n - 1));
    }
  }

  /** Bounded, and lock-free: a call makes at most sixteen swap attempts in a run, and one
      that gives up has no commit of its own and has seen sixteen by others since it began. */
  lemma BoundedAttempts(cfg: Config, run: seq<Sys>, ls: seq<Label>, base: int, n: nat, call: CallId)
    requires Run(cfg, run, ls, base) && n < |run|
    ensures AttemptCount(run, ls, call, n) <= MAX_ATTEMPTS
    ensures call in run[n].outcomes && run[n].outcomes[call].Exhausted? ==>
              && run[n].outcomes[call].from + MAX_ATTEMPTS <= |run[n].log|
              && forall i :: 0 <= i < |run[n].log| ==> run[n].log[i].call != call
  {
    RunAttempts(cfg, run, ls, base, n, call);
    RunInv(cfg, run, ls, base, n);
    var s := run[n];
    if call in s.outcomes && s.outcomes[call].Exhausted? {
      forall i | 0 <= i < |s.log|
        ensures s.log[i].call != call
      {
        assert Committed(s, s.log[i].call, i);
      }
    }
  }
}
