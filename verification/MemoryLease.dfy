/** `LockAcquire` and `LockRelease` of the memory store on one key: critical
    sections of the store mutex over an engine whose janitor also runs. */
module MemoryLease {
  import opened Bytes
  import opened LeaseMachine
  import ExpiringMap

  type Tid = nat

  datatype Item = Item(value: bytes, expiration: int)

  datatype Pc =
    | Idle
    | WaitAcquire(owner: Owner, ttl: int)
    | InAcquire(owner: Owner, ttl: int)
    | WaitRelease(owner: Owner)
    | InRelease(owner: Owner)
    | InDelete(owner: Owner)
    | Leaving(reply: Reply)

  datatype Choice = Acquire(owner: Owner, ttl: int) | Release(owner: Owner) | Proceed

  datatype Label = Advance(to: int) | Client(tid: Tid, choice: Choice) | Janitor

  datatype Sys = Sys(now: int, item: Option<Item>, mu: Option<Tid>, defaultTTL: int, clients: map<Tid, Pc>,
      hist: seq<Grant>)

  function PcOf(s: Sys, tid: Tid): Pc {
    if tid in s.clients then s.clients[tid] else Idle
  }

  predicate Inside(pc: Pc) {
    pc.InAcquire? || pc.InRelease? || pc.InDelete? || pc.Leaving?
  }

  /** The engine's expiry test: an item without a positive stamp never expires. */
  predicate Found(s: Sys) {
    s.item.Some? && !(s.item.value.expiration > 0 && s.now > s.item.value.expiration)
  }

  ghost predicate CanMove(s: Sys, pc: Pc, choice: Choice) {
    && (pc.Idle? <==> !choice.Proceed?)
    && (pc.WaitAcquire? || pc.WaitRelease? ==> s.mu == None)
  }

  datatype Move = Move(pc: Pc, item: Option<Item>, mu: Option<Tid>, ev: Event, reply: Option<Reply>)

  function MoveOf(s: Sys, tid: Tid, pc: Pc, choice: Choice): Move
    requires CanMove(s, pc, choice)
  {
    match pc
    case Idle =>
      var next := if choice.Acquire? then WaitAcquire(choice.owner, choice.ttl) else WaitRelease(choice.owner);
      Move(next, s.item, s.mu, Quiet, None)
    case WaitAcquire(owner, ttl) => Move(InAcquire(owner, ttl), s.item, Some(tid), Quiet, None)
    case InAcquire(owner, ttl) =>
      // the engine's Add checks and writes in one step under its own lock
      var exp := ExpiringMap.Expiry(s.now, ttl, s.defaultTTL);
      if Found(s) then Move(Leaving(No), s.item, s.mu, Quiet, None)
      else Move(Leaving(Yes), Some(Item(owner, exp)), s.mu, Granted(owner, exp), None)
    case WaitRelease(owner) => Move(InRelease(owner), s.item, Some(tid), Quiet, None)
    case InRelease(owner) =>
      var next := if Found(s) && s.item.value.value == owner then InDelete(owner) else Leaving(No);
      Move(next, s.item, s.mu, Quiet, None)
    case InDelete(owner) =>
      Move(Leaving(Yes), None, s.mu, if s.item.Some? then Removed(owner) else Quiet, None)
    case Leaving(reply) => Move(Idle, s.item, None, Quiet, Some(reply))
  }

  ghost predicate Enabled(s: Sys, l: Label) {
    match l
    case Advance(to) => s.now <= to
    case Client(tid, choice) => CanMove(s, PcOf(s, tid), choice)
    case Janitor => s.item.Some? && !Found(s)
  }

  ghost function EventOf(s: Sys, l: Label): Event
    requires Enabled(s, l)
  {
    match l
    case Advance(to) => Tick(to)
    case Client(tid, choice) => MoveOf(s, tid, PcOf(s, tid), choice).ev
    case Janitor => Reaped
  }

  ghost function Apply(s: Sys, l: Label): Sys
    requires Enabled(s, l)
  {
    match l
    case Advance(to) => s.(now := to)
    case Client(tid, choice) =>
      var m := MoveOf(s, tid, PcOf(s, tid), choice);
      s.(item := m.item, mu := m.mu, clients := s.clients[tid := m.pc], hist := Logged(s.hist, s.now, m.ev))
    case Janitor => s.(item := None)
  }

  // ------------------------------------------------------------------ refinement

  function Abstraction(s: Sys): State {
    State(s.now, if s.item.Some? then Some(Lease(s.item.value.value, s.item.value.expiration)) else None, s.hist)
  }

  ghost predicate Init(s: Sys) {
    s.item == None && s.mu == None && s.clients == map[] && s.hist == []
  }

  ghost predicate Inv(s: Sys) {
    && (forall tid :: tid in s.clients && Inside(s.clients[tid]) ==> s.mu == Some(tid))
    && (forall tid :: tid in s.clients && s.clients[tid].InDelete? && s.item.Some? ==>
          s.item.value.value == s.clients[tid].owner)
    && LeaseMachine.Inv(Abstraction(s))
  }

  lemma StepRefines(s: Sys, l: Label)
    requires Inv(s) && Enabled(s, l)
    ensures LeaseMachine.Step(Abstraction(s), EventOf(s, l), Abstraction(Apply(s, l)))
    ensures Inv(Apply(s, l))
  {
    LeaseMachine.StepInv(Abstraction(s), EventOf(s, l), Abstraction(Apply(s, l)));
  }

  /** No step of a releasing client removes an entry that carries another token. */
  lemma SuccessorSurvives(s: Sys, tid: Tid, choice: Choice)
    requires Inv(s) && CanMove(s, PcOf(s, tid), choice)
    requires PcOf(s, tid).WaitRelease? || PcOf(s, tid).InRelease? || PcOf(s, tid).InDelete?
    requires s.item.Some? && s.item.value.value != PcOf(s, tid).owner
    ensures Apply(s, Client(tid, choice)).item == s.item
  {
  }

  ghost predicate Run(run: seq<Sys>, ls: seq<Label>) {
    && |run| == |ls| + 1
    && Init(run[0])
    && forall i :: 0 <= i < |ls| ==> Enabled(run[i], ls[i]) && run[i + 1] == Apply(run[i], ls[i])
  }

  lemma {:induction false} RunInv(run: seq<Sys>, ls: seq<Label>, n: nat)
    requires Run(run, ls) && n < |run|
    ensures Inv(run[n])
  {
    if n == 0 {
      LeaseMachine.InitInv(Abstraction(run[0]));
    } else {
      RunInv(run, ls, n - 1);
      StepRefines(run[n - 1], ls[n - 1]);
    }
  }

  lemma LeaseSafety(run: seq<Sys>, ls: seq<Label>, n: nat)
    requires Run(run, ls) && n < |run|
    ensures MutuallyExclusive(run[n].hist)
    ensures OnlyOwnersRelease(run[n].hist)
  {
    RunInv(run, ls, n);
    LeaseMachine.InvIsSafe(Abstraction(run[n]));
  }

  // ---------------------------------------------------------- whole calls, undisturbed

  function StepsLeft(pc: Pc): nat {
    match pc
    case Idle => 0
    case Leaving(_) => 1
    case InDelete(_) => 2
    case InAcquire(_, _) => 3
    case InRelease(_) => 3
    case _ => 4
  }

  /** The item and the answer after a call that goes on from `pc` with nothing in between. */
  function Finish(s: Sys, tid: Tid, pc: Pc): (Option<Item>, Option<Reply>)
    requires !pc.Idle? && (pc.WaitAcquire? || pc.WaitRelease? ==> s.mu == None)
    decreases StepsLeft(pc)
  {
    var m := MoveOf(s, tid, pc, Proceed);
    if m.pc.Idle? then (m.item, m.reply) else Finish(s.(item := m.item, mu := m.mu), tid, m.pc)
  }

  lemma LeavingAlone(s: Sys, tid: Tid, reply: Reply)
    ensures Finish(s, tid, Leaving(reply)) == (s.item, Some(reply))
  {
  }

  /** An undisturbed LockAcquire answers yes if and only if nothing live is stored, and then
      the item is the owner's, for the TTL or the default; otherwise it is unchanged. */
  lemma AcquireAlone(s: Sys, tid: Tid, owner: Owner, ttl: int)
    requires s.mu == None
    ensures var (item, reply) := Finish(s, tid, WaitAcquire(owner, ttl));
            && MoveOf(s, tid, Idle, Acquire(owner, ttl)).pc == WaitAcquire(owner, ttl)
            && (reply == Some(Yes) <==> s.item == None || 0 < s.item.value.expiration < s.now)
            && item == if reply == Some(Yes) then Some(Item(owner, s.now + if ttl > 0 then ttl else s.defaultTTL))
               else s.item
  {
    var s1 := s.(mu := Some(tid));
    assert Finish(s, tid, WaitAcquire(owner, ttl)) == Finish(s1, tid, InAcquire(owner, ttl));
    var m := MoveOf(s1, tid, InAcquire(owner, ttl), Proceed);
    LeavingAlone(s1.(item := m.item), tid, m.pc.reply);
  }

  /** An undisturbed LockRelease answers yes if and only if a live item carries its token, and
      then the item is gone; otherwise it is unchanged. */
  lemma ReleaseAlone(s: Sys, tid: Tid, owner: Owner)
    requires s.mu == None
    ensures var (item, reply) := Finish(s, tid, WaitRelease(owner));
            && MoveOf(s, tid, Idle, Release(owner)).pc == WaitRelease(owner)
            && (reply == Some(Yes) <==>
                  && s.item.Some? && s.item.value.value == owner
                  && (s.item.value.expiration <= 0 || s.now <= s.item.value.expiration))
            && item == if reply == Some(Yes) then None else s.item
  {
    var s1 := s.(mu := Some(tid));
    assert Finish(s, tid, WaitRelease(owner)) == Finish(s1, tid, InRelease(owner));
    var m := MoveOf(s1, tid, InRelease(owner), Proceed);
    if m.pc.InDelete? {
      assert Finish(s1, tid, InDelete(owner)) == Finish(s1.(item := None), tid, Leaving(Yes));
      LeavingAlone(s1.(item := None), tid, Yes);
    } else {
      LeavingAlone(s1, tid, No);
    }
  }
}
