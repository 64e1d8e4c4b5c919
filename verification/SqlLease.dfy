/** `Add` and `LockRelease` of the SQL store on one lock row, any number of
    clients, split at every statement sent to the database. */
module SqlLease {
  import opened Bytes
  import opened LeaseMachine
  import ExpiringMap

  type Tid = nat

  datatype Row = Row(v: bytes, ea: int)

  datatype Pc =
    | Idle
    | Insert(owner: Owner, nowMs: int, exp: int)
    | Reuse(owner: Owner, nowMs: int, exp: int)
    | Delete(owner: Owner)

  /** `Fail` is a statement that errs without effect, `LoseReply` one that takes
      effect and errs all the same. */
  datatype Choice = Acquire(owner: Owner, ttl: int) | Release(owner: Owner) | Proceed | Fail | LoseReply

  datatype Label = Advance(to: int) | Client(tid: Tid, choice: Choice)

  datatype Sys = Sys(now: int, row: Option<Row>, defaultTTL: int, clients: map<Tid, Pc>, hist: seq<Grant>)

  function PcOf(s: Sys, tid: Tid): Pc {
    if tid in s.clients then s.clients[tid] else Idle
  }

  datatype Move = Move(pc: Pc, row: Option<Row>, ev: Event, reply: Option<Reply>)

  ghost predicate CanMove(pc: Pc, choice: Choice) {
    pc.Idle? <==> choice.Acquire? || choice.Release?
  }

  /** A statement that changes the row, or finds nothing to change. */
  function Answer(choice: Choice, rows: nat): Option<Reply> {
    Some(if choice.LoseReply? then Error else if rows > 0 then Yes else No)
  }

  function MoveOf(s: Sys, pc: Pc, choice: Choice): Move
    requires CanMove(pc, choice)
  {
    var failed := Move(Idle, s.row, Quiet, Some(Error));
    match pc
    case Idle =>
      if choice.Acquire? then
        var exp := ExpiringMap.Expiry(s.now, choice.ttl, s.defaultTTL);
        Move(Insert(choice.owner, s.now, exp), s.row, Quiet, None)
      else Move(Delete(choice.owner), s.row, Quiet, None)
    case Insert(owner, nowMs, exp) =>
      if choice.Fail? then failed
      else if s.row == None then Move(Idle, Some(Row(owner, exp)), Granted(owner, exp), Answer(choice, 1))
      else if choice.LoseReply? then failed
      else Move(Reuse(owner, nowMs, exp), s.row, Quiet, None)
    case Reuse(owner, nowMs, exp) =>
      if choice.Fail? then failed
      else if s.row.Some? && s.row.value.ea < nowMs
      then Move(Idle, Some(Row(owner, exp)), Granted(owner, exp), Answer(choice, 1))
      else Move(Idle, s.row, Quiet, Answer(choice, 0))
    case Delete(owner) =>
      if choice.Fail? then failed
      else if s.row.Some? && s.row.value.v == owner
      then Move(Idle, None, Removed(owner), Answer(choice, 1))
      else Move(Idle, s.row, Quiet, Answer(choice, 0))
  }

  ghost predicate Enabled(s: Sys, l: Label) {
    match l
    case Advance(to) => s.now <= to
    case Client(tid, choice) => CanMove(PcOf(s, tid), choice)
  }

  ghost function EventOf(s: Sys, l: Label): Event
    requires Enabled(s, l)
  {
    match l
    case Advance(to) => Tick(to)
    case Client(tid, choice) => MoveOf(s, PcOf(s, tid), choice).ev
  }

  ghost function Apply(s: Sys, l: Label): Sys
    requires Enabled(s, l)
  {
    match l
    case Advance(to) => s.(now := to)
    case Client(tid, choice) =>
      var m := MoveOf(s, PcOf(s, tid), choice);
      s.(row := m.row, clients := s.clients[tid := m.pc], hist := Logged(s.hist, s.now, m.ev))
  }

  // ------------------------------------------------------------------ refinement

  function Abstraction(s: Sys): State {
    State(s.now, if s.row.Some? then Some(Lease(s.row.value.v, s.row.value.ea)) else None, s.hist)
  }

  ghost predicate Init(s: Sys) {
    s.row == None && s.clients == map[] && s.hist == []
  }

  /** The clock reading an acquisition compares against is never ahead of the clock. */
  ghost predicate PcInv(s: Sys, pc: Pc) {
    pc.Insert? || pc.Reuse? ==> pc.nowMs <= s.now
  }

  ghost predicate Inv(s: Sys) {
    && (forall tid :: tid in s.clients ==> PcInv(s, s.clients[tid]))
    && LeaseMachine.Inv(Abstraction(s))
  }

  lemma StepRefines(s: Sys, l: Label)
    requires Inv(s) && Enabled(s, l)
    ensures LeaseMachine.Step(Abstraction(s), EventOf(s, l), Abstraction(Apply(s, l)))
    ensures Inv(Apply(s, l))
  {
    LeaseMachine.StepInv(Abstraction(s), EventOf(s, l), Abstraction(Apply(s, l)));
  }

  /** A release statement leaves a row that carries another owner's token alone,
      whenever it reaches the database. */
  lemma SuccessorSurvives(s: Sys, tid: Tid, choice: Choice)
    requires PcOf(s, tid).Delete? && CanMove(PcOf(s, tid), choice)
    requires s.row.Some? && s.row.value.v != PcOf(s, tid).owner
    ensures Apply(s, Client(tid, choice)).row == s.row
  {
  }

  ghost predicate Run(run: seq<Sys>, ls: seq<Label>) {
    && |run| == |ls| + 1
    && Init(run[0])
    && forall i :: 0 <= i < |ls| ==> Enabled(run[i], ls[i]) && run[i + 1] == Apply(run[i], ls[i])
  }

  lemma {:induction false} RunInv(run: seq<Sys>, ls: seq<Label>, n: nat)
    requires Run(run, ls) && n < |run|
    ensures Inv(run[n])
  {
    if n == 0 {
      LeaseMachine.InitInv(Abstraction(run[0]));
    } else {
      RunInv(run, ls, n - 1);
      StepRefines(run[n - 1], ls[n - 1]);
    }
  }

  lemma LeaseSafety(run: seq<Sys>, ls: seq<Label>, n: nat)
    requires Run(run, ls) && n < |run|
    ensures MutuallyExclusive(run[n].hist)
    ensures OnlyOwnersRelease(run[n].hist)
  {
    RunInv(run, ls, n);
    LeaseMachine.InvIsSafe(Abstraction(run[n]));
  }

  /** A statement that errs is answered with an error; without a lost reply it changes nothing,
      and with one it does what it would have done. */
  lemma ErrorsAreAnswered(s: Sys, pc: Pc)
    requires !pc.Idle?
    ensures CanMove(pc, Proceed) && CanMove(pc, Fail) && CanMove(pc, LoseReply)
    ensures MoveOf(s, pc, Fail) == Move(Idle, s.row, Quiet, Some(Error))
    ensures MoveOf(s, pc, LoseReply).reply == Some(Error) && MoveOf(s, pc, LoseReply).row == MoveOf(s, pc, Proceed).row
  {
  }

  // ---------------------------------------------------------- whole calls, undisturbed

  /** While statements succeed, a call answers yes if and only if it changed the row. */
  lemma ReplyTellsEffect(s: Sys, pc: Pc)
    requires !pc.Idle?
    ensures var m := MoveOf(s, pc, Proceed);
            && (m.pc.Idle? <==> m.reply.Some?)
            && (m.reply == None ==> m.ev == Quiet)
            && (m.reply.Some? ==> (m.reply == Some(Yes) <==> m.ev != Quiet))
  {
  }

  /** The row and the answer after a call that goes on from `pc` with nothing in between. */
  function Finish(s: Sys, pc: Pc): (Option<Row>, Option<Reply>)
    requires !pc.Idle?
    decreases if pc.Insert? then 1 else 0
  {
    var m := MoveOf(s, pc, Proceed);
    if m.pc.Idle? then (m.row, m.reply) else Finish(s.(row := m.row), m.pc)
  }

  /** An undisturbed LockAcquire answers yes if and only if there is no row or an expired one,
      and then the row is the owner's, for the TTL or the default; otherwise it is unchanged. */
  lemma AcquireAlone(s: Sys, owner: Owner, ttl: int)
    ensures var (row, reply) := Finish(s, MoveOf(s, Idle, Acquire(owner, ttl)).pc);
            && (reply == Some(Yes) <==> s.row == None || s.row.value.ea < s.now)
            && row == if reply == Some(Yes) then Some(Row(owner, s.now + if ttl > 0 then ttl else s.defaultTTL))
               else s.row
  {
    var pc := MoveOf(s, Idle, Acquire(owner, ttl)).pc;
    if s.row.Some? {
      assert Finish(s, pc) == Finish(s, Reuse(pc.owner, pc.nowMs, pc.exp));
    }
  }

  /** An undisturbed LockRelease answers yes if and only if the row carries its token, and then
      the row is gone; otherwise it is unchanged. */
  lemma ReleaseAlone(s: Sys, owner: Owner)
    ensures var (row, reply) := Finish(s, MoveOf(s, Idle, Release(owner)).pc);
            && (reply == Some(Yes) <==> s.row.Some? && s.row.value.v == owner)
            && row == if reply == Some(Yes) then None else s.row
  {
  }
}
