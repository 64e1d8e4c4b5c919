/** `LockAcquire` and `LockRelease` of the NATS store, one key, any number of
    clients, split at every call to the bucket and every clock reading. */
module NatsLease {
  import opened Bytes
  import opened LeaseMachine
  import opened NatsBucket
  import ExpiringMap
  import NatsEnvelope

  type Tid = nat

  /** `maxAge` is the bucket's own TTL and matters only with `bucketTTL`. */
  datatype Config = Config(bucketTTL: bool, defaultTTL: int, maxAge: int, json: bytes -> NatsEnvelope.LegacyJson)

  datatype Pc =
    | Idle
    | AcqGet(owner: Owner, body: bytes)
    | AcqSeen(owner: Owner, body: bytes, rev: nat, seen: bytes)
    | AcqUpdate(owner: Owner, body: bytes, rev: nat)
    | AcqCreate(owner: Owner, body: bytes)
    | RelGet(owner: Owner)
    | RelSeen(owner: Owner, rev: nat, seen: bytes)
    | RelDelete(owner: Owner, rev: nat)

  /** `Fail` is a bucket call that errs without effect, `LoseReply` one that takes
      effect and errs all the same. */
  datatype Choice = Acquire(owner: Owner, ttl: int) | Release(owner: Owner) | Proceed | Fail | LoseReply

  datatype Label = Advance(to: int) | Client(tid: Tid, choice: Choice) | OtherKeyWrite | ServerExpire

  datatype Sys = Sys(now: int, slot: Slot, last: nat, clients: map<Tid, Pc>, hist: seq<Grant>)

  function PcOf(s: Sys, tid: Tid): Pc {
    if tid in s.clients then s.clients[tid] else Idle
  }

  /** The effect of one client step: next program counter, bucket, event and, when
      the call returns, its reply. */
  datatype Move = Move(pc: Pc, slot: Slot, last: nat, ev: Event, reply: Option<Reply>)

  /** The lease a stored body stands for. */
  function LeaseOf(cfg: Config, body: bytes, written: int): Lease {
    if cfg.bucketTTL then Lease(body, written + cfg.maxAge)
    else match NatsEnvelope.Decode(body, cfg.json)
         case Wrapped(value, expiresAt) => Lease(value, expiresAt)
         case _ => Lease(body, 0)
  }

  ghost predicate CanMove(cfg: Config, s: Sys, pc: Pc, choice: Choice) {
    match choice
    case Acquire(owner, ttl) => pc.Idle? && IsInt64(ExpiringMap.Expiry(s.now, ttl, cfg.defaultTTL))
    case Release(owner) => pc.Idle?
    case _ => !pc.Idle?
  }

  function Stay(s: Sys, pc: Pc): Move {
    Move(pc, s.slot, s.last, Quiet, None)
  }

  function Return(s: Sys, reply: Reply): Move {
    Move(Idle, s.slot, s.last, Quiet, Some(reply))
  }

  /** A conditional write by the bucket: applied exactly when `matches` holds. */
  function Commit(s: Sys, matches: bool, slot: Slot, ev: Event, choice: Choice): Move {
    if choice.Fail? then Return(s, Error)
    else if !matches then Return(s, if choice.LoseReply? then Error else No)
    else Move(Idle, slot, s.last + 1, ev, Some(if choice.LoseReply? then Error else Yes))
  }

  function MoveOf(cfg: Config, s: Sys, pc: Pc, choice: Choice): Move
    requires CanMove(cfg, s, pc, choice)
  {
    match pc
    case Idle =>
      if choice.Acquire? then
        if cfg.bucketTTL then Stay(s, AcqCreate(choice.owner, choice.owner))
        else Stay(s, AcqGet(choice.owner,
            NatsEnvelope.Encode(choice.owner, ExpiringMap.Expiry(s.now, choice.ttl, cfg.defaultTTL))))
      else Stay(s, RelGet(choice.owner))
    case AcqGet(owner, body) =>
      if choice != Proceed then Return(s, Error)
      else if s.slot.Entry? then Stay(s, AcqSeen(owner, body, s.slot.rev, s.slot.body))
      else Stay(s, AcqCreate(owner, body))
    case AcqSeen(owner, body, rev, seen) =>
      (match NatsEnvelope.Decode(seen, cfg.json)
       case Corrupt => Return(s, Error)
       case Plain => Return(s, No)
       case Wrapped(_, expiresAt) =>
         if expiresAt <= 0 || s.now <= expiresAt then Return(s, No)
         else Stay(s, AcqUpdate(owner, body, rev)))
    case AcqUpdate(owner, body, rev) =>
      Commit(s, Rev(s.slot) == rev, Entry(s.last + 1, body, s.now),
             Granted(owner, LeaseOf(cfg, body, s.now).expiry), choice)
    case AcqCreate(owner, body) =>
      Commit(s, !s.slot.Entry?, Entry(s.last + 1, body, s.now),
             Granted(owner, LeaseOf(cfg, body, s.now).expiry), choice)
    case RelGet(owner) =>
      if choice != Proceed then Return(s, Error)
      else if s.slot.Entry? then Stay(s, RelSeen(owner, s.slot.rev, s.slot.body))
      else Return(s, No)
    case RelSeen(owner, rev, seen) =>
      if cfg.bucketTTL then
        if seen != owner then Return(s, No) else Stay(s, RelDelete(owner, rev))
      else
        (match NatsEnvelope.Decode(seen, cfg.json)
         case Corrupt => Return(s, Error)
         case Plain => if seen != owner then Return(s, No) else Stay(s, RelDelete(owner, rev))
         case Wrapped(value, expiresAt) =>
           if NatsEnvelope.Expired(expiresAt, s.now) || value != owner then Return(s, No)
           else Stay(s, RelDelete(owner, rev)))
    case RelDelete(owner, rev) =>
      Commit(s, Rev(s.slot) == rev, Marker(s.last + 1), Removed(owner), choice)
  }

  ghost predicate Enabled(cfg: Config, s: Sys, l: Label) {
    match l
    case Advance(to) => s.now <= to
    case Client(tid, choice) => CanMove(cfg, s, PcOf(s, tid), choice)
    case OtherKeyWrite => true
    case ServerExpire => cfg.bucketTTL && s.slot.Entry? && s.slot.written + cfg.maxAge < s.now
  }

  ghost function EventOf(cfg: Config, s: Sys, l: Label): Event
    requires Enabled(cfg, s, l)
  {
    match l
    case Advance(to) => Tick(to)
    case Client(tid, choice) => MoveOf(cfg, s, PcOf(s, tid), choice).ev
    case OtherKeyWrite => Quiet
    case ServerExpire => Reaped
  }

  ghost function Apply(cfg: Config, s: Sys, l: Label): Sys
    requires Enabled(cfg, s, l)
  {
    var hist := Logged(s.hist, s.now, EventOf(cfg, s, l));
    match l
    case Advance(to) => s.(now := to)
    case Client(tid, choice) =>
      var m := MoveOf(cfg, s, PcOf(s, tid), choice);
      Sys(s.now, m.slot, m.last, s.clients[tid := m.pc], hist)
    case OtherKeyWrite => s.(last := s.last + 1)
    case ServerExpire => s.(slot := Absent)
  }

  // ------------------------------------------------------------------ refinement

  function Abstraction(cfg: Config, s: Sys): State {
    State(s.now,
          if s.slot.Entry? then Some(LeaseOf(cfg, s.slot.body, s.slot.written)) else None,
          s.hist)
  }

  ghost predicate Init(s: Sys) {
    !s.slot.Entry? && Rev(s.slot) <= s.last && s.clients == map[] && s.hist == []
  }

  /** A body this protocol writes on behalf of `owner`. */
  ghost predicate BodyFor(cfg: Config, owner: Owner, body: bytes) {
    if cfg.bucketTTL then body == owner
    else exists e :: NatsEnvelope.Decode(body, cfg.json) == NatsEnvelope.Wrapped(owner, e)
  }

  /** While the slot still has the revision a client read, what it learned is still true. */
  ghost predicate PcInv(cfg: Config, s: Sys, pc: Pc) {
    match pc
    case Idle => true
    case AcqGet(owner, body) => BodyFor(cfg, owner, body) && !cfg.bucketTTL
    case AcqCreate(owner, body) => BodyFor(cfg, owner, body)
    case AcqSeen(owner, body, rev, seen) =>
      && BodyFor(cfg, owner, body) && !cfg.bucketTTL && 0 < rev <= s.last
      && (Rev(s.slot) == rev ==> s.slot.Entry? && s.slot.body == seen)
    case AcqUpdate(owner, body, rev) =>
      && BodyFor(cfg, owner, body) && 0 < rev <= s.last
      && (Rev(s.slot) == rev ==> s.slot.Entry? && LeaseOf(cfg, s.slot.body, s.slot.written).expiry < s.now)
    case RelGet(owner) => true
    case RelSeen(owner, rev, seen) =>
      && 0 < rev <= s.last
      && (Rev(s.slot) == rev ==> s.slot.Entry? && s.slot.body == seen)
    case RelDelete(owner, rev) =>
      && 0 < rev <= s.last
      && (Rev(s.slot) == rev ==> s.slot.Entry? && LeaseOf(cfg, s.slot.body, s.slot.written).owner == owner)
  }

  ghost predicate Inv(cfg: Config, s: Sys) {
    && Rev(s.slot) <= s.last
    && (s.slot.Entry? ==> s.slot.rev > 0)
    && (forall tid :: tid in s.clients ==> PcInv(cfg, s, s.clients[tid]))
    && LeaseMachine.Inv(Abstraction(cfg, s))
  }

  lemma ClientStep(cfg: Config, s: Sys, tid: Tid, choice: Choice)
    requires Inv(cfg, s) && CanMove(cfg, s, PcOf(s, tid), choice)
    ensures forall t :: t in Apply(cfg, s, Client(tid, choice)).clients ==>
              PcInv(cfg, Apply(cfg, s, Client(tid, choice)), Apply(cfg, s, Client(tid, choice)).clients[t])
  {
    var s' := Apply(cfg, s, Client(tid, choice));
    MoveKeepsOwnPc(cfg, s, PcOf(s, tid), choice);
    forall t | t in s'.clients ensures PcInv(cfg, s', s'.clients[t]) {
      if t != tid {
        assert PcInv(cfg, s, s.clients[t]);
      }
    }
  }

  lemma MoveRefines(cfg: Config, s: Sys, pc: Pc, choice: Choice)
    requires Rev(s.slot) <= s.last && (s.slot.Entry? ==> s.slot.rev > 0)
    requires CanMove(cfg, s, pc, choice) && PcInv(cfg, s, pc)
    ensures var m := MoveOf(cfg, s, pc, choice);
            LeaseMachine.Step(Abstraction(cfg, s), m.ev,
                              Abstraction(cfg, Sys(s.now, m.slot, m.last, s.clients, Logged(s.hist, s.now, m.ev))))
  {
  }

  /** Every step of every client is one abstract lease step. */
  lemma StepRefines(cfg: Config, s: Sys, l: Label)
    requires Inv(cfg, s) && Enabled(cfg, s, l)
    ensures LeaseMachine.Step(Abstraction(cfg, s), EventOf(cfg, s, l), Abstraction(cfg, Apply(cfg, s, l)))
    ensures Inv(cfg, Apply(cfg, s, l))
  {
    if l.Client? {
      assert PcInv(cfg, s, PcOf(s, l.tid));
      ClientStep(cfg, s, l.tid, l.choice);
      MoveRefines(cfg, s, PcOf(s, l.tid), l.choice);
      MoveKeepsOwnPc(cfg, s, PcOf(s, l.tid), l.choice);
    }
    LeaseMachine.StepInv(Abstraction(cfg, s), EventOf(cfg, s, l), Abstraction(cfg, Apply(cfg, s, l)));
  }

  lemma MoveKeepsOwnPc(cfg: Config, s: Sys, pc: Pc, choice: Choice)
    requires Rev(s.slot) <= s.last && (s.slot.Entry? ==> s.slot.rev > 0)
    requires CanMove(cfg, s, pc, choice) && PcInv(cfg, s, pc)
    ensures var m := MoveOf(cfg, s, pc, choice);
            && PcInv(cfg, s.(slot := m.slot, last := m.last), m.pc)
            && (m.slot == s.slot ==> m.last == s.last && m.ev == Quiet)
            && (m.slot != s.slot ==> Rev(m.slot) == m.last == s.last + 1)
  {
    if choice.Acquire? && !cfg.bucketTTL {
      NatsEnvelope.RoundTrip(choice.owner, ExpiringMap.Expiry(s.now, choice.ttl, cfg.defaultTTL), cfg.json);
    }
  }

  /** A call that answers yes has written, or removed, an entry of its own owner. */
  lemma YesMeansDone(cfg: Config, s: Sys, pc: Pc, choice: Choice)
    requires CanMove(cfg, s, pc, choice)
    requires MoveOf(cfg, s, pc, choice).reply == Some(Yes)
    ensures !pc.Idle?
    ensures pc.AcqUpdate? || pc.AcqCreate? || pc.RelDelete?
    ensures var ev := MoveOf(cfg, s, pc, choice).ev;
            if pc.RelDelete? then ev == Removed(pc.owner) else ev.Granted? && ev.owner == pc.owner
  {
  }

  /** While bucket calls succeed, a call answers yes if and only if it changed the lease. */
  lemma ReplyTellsEffect(cfg: Config, s: Sys, pc: Pc)
    requires !pc.Idle?
    ensures var m := MoveOf(cfg, s, pc, Proceed);
            && (m.reply == None ==> m.ev == Quiet)
            && (m.reply.Some? ==> (m.reply == Some(Yes) <==> m.ev != Quiet))
  {
  }

  /** A release that read revision `rev` leaves any other revision alone: whatever
      was written after its read, even by the same owner, survives its delete. */
  lemma SuccessorSurvives(cfg: Config, s: Sys, tid: Tid, choice: Choice)
    requires Inv(cfg, s) && CanMove(cfg, s, PcOf(s, tid), choice)
    requires PcOf(s, tid).RelGet? || PcOf(s, tid).RelSeen? || PcOf(s, tid).RelDelete?
    requires s.slot.Entry?
    ensures var pc := PcOf(s, tid);
            var s' := Apply(cfg, s, Client(tid, choice));
            && (LeaseOf(cfg, s.slot.body, s.slot.written).owner != pc.owner ==> s'.slot == s.slot)
            && (!pc.RelGet? && s.slot.rev != pc.rev ==> s'.slot == s.slot)
  {
    assert PcInv(cfg, s, PcOf(s, tid));
  }

  /** A run: the states visited by a sequence of labels. */
  ghost predicate Run(cfg: Config, run: seq<Sys>, ls: seq<Label>) {
    && |run| == |ls| + 1
    && Init(run[0])
    && forall i :: 0 <= i < |ls| ==> Enabled(cfg, run[i], ls[i]) && run[i + 1] == Apply(cfg, run[i], ls[i])
  }

  lemma {:induction false} RunInv(cfg: Config, run: seq<Sys>, ls: seq<Label>, n: nat)
    requires Run(cfg, run, ls) && n < |run|
    ensures Inv(cfg, run[n])
  {
    if n == 0 {
      LeaseMachine.InitInv(Abstraction(cfg, run[0]));
    } else {
      RunInv(cfg, run, ls, n - 1);
      StepRefines(cfg, run[n - 1], ls[n - 1]);
    }
  }

  lemma LeaseSafety(cfg: Config, run: seq<Sys>, ls: seq<Label>, n: nat)
    requires Run(cfg, run, ls) && n < |run|
    ensures MutuallyExclusive(run[n].hist)
    ensures OnlyOwnersRelease(run[n].hist)
  {
    RunInv(cfg, run, ls, n);
    LeaseMachine.InvIsSafe(Abstraction(cfg, run[n]));
  }

  /** A call in progress can always go on, fail or lose a reply; a bucket call that errs is
      answered with an error, and without a lost reply changes nothing. */
  lemma ErrorsAreAnswered(cfg: Config, s: Sys, pc: Pc)
    requires !pc.Idle?
    ensures CanMove(cfg, s, pc, Proceed) && CanMove(cfg, s, pc, Fail) && CanMove(cfg, s, pc, LoseReply)
    ensures !pc.AcqSeen? && !pc.RelSeen? ==>
              && MoveOf(cfg, s, pc, Fail) == Move(Idle, s.slot, s.last, Quiet, Some(Error))
              && MoveOf(cfg, s, pc, LoseReply).reply == Some(Error)
    ensures pc.AcqUpdate? || pc.AcqCreate? || pc.RelDelete? ==>
              MoveOf(cfg, s, pc, LoseReply).slot == MoveOf(cfg, s, pc, Proceed).slot
  {
  }

  // ---------------------------------------------------------- whole calls, undisturbed

  function StepsLeft(pc: Pc): nat {
    match pc
    case Idle => 0
    case AcqGet(_, _) => 3
    case RelGet(_) => 3
    case AcqSeen(_, _, _, _) => 2
    case RelSeen(_, _, _) => 2
    case _ => 1
  }

  /** The bucket and the answer after a call that goes on from `pc` with nothing in between. */
  function Finish(cfg: Config, s: Sys, pc: Pc): (Slot, Option<Reply>)
    requires !pc.Idle?
    decreases StepsLeft(pc)
  {
    var m := MoveOf(cfg, s, pc, Proceed);
    if m.pc.Idle? then (m.slot, m.reply) else Finish(cfg, s.(slot := m.slot, last := m.last), m.pc)
  }

  /** What an acquisition leaves for its owner. */
  ghost predicate HoldsLease(cfg: Config, slot: Slot, owner: Owner, now: int, expiry: int) {
    && slot.Entry? && slot.written == now
    && if cfg.bucketTTL then slot.body == owner
       else NatsEnvelope.Decode(slot.body, cfg.json) == NatsEnvelope.Wrapped(owner, expiry)
  }

  /** Nobody holds the key: no entry, or one whose own stamp has passed. */
  predicate Takeable(cfg: Config, slot: Slot, now: int) {
    || !slot.Entry?
    || (!cfg.bucketTTL
        && match NatsEnvelope.Decode(slot.body, cfg.json)
           case Wrapped(_, stamp) => 0 < stamp < now
           case _ => false)
  }

  /** The stored bytes are no envelope that can be read. */
  predicate Garbled(cfg: Config, slot: Slot) {
    slot.Entry? && !cfg.bucketTTL && NatsEnvelope.Decode(slot.body, cfg.json).Corrupt?
  }

  lemma SeenAlone(cfg: Config, s: Sys, owner: Owner, body: bytes)
    requires s.slot.Entry? && !cfg.bucketTTL
    ensures Finish(cfg, s, AcqSeen(owner, body, s.slot.rev, s.slot.body)) ==
              match NatsEnvelope.Decode(s.slot.body, cfg.json)
              case Corrupt => (s.slot, Some(Error))
              case Plain => (s.slot, Some(No))
              case Wrapped(_, stamp) =>
                if 0 < stamp < s.now then (Entry(s.last + 1, body, s.now), Some(Yes)) else (s.slot, Some(No))
  {
    assert Finish(cfg, s, AcqUpdate(owner, body, s.slot.rev)) == (Entry(s.last + 1, body, s.now), Some(Yes));
  }

  lemma CreateAlone(cfg: Config, s: Sys, owner: Owner, body: bytes)
    ensures Finish(cfg, s, AcqCreate(owner, body)) ==
              if s.slot.Entry? then (s.slot, Some(No)) else (Entry(s.last + 1, body, s.now), Some(Yes))
  {
  }

  /** An undisturbed LockAcquire answers yes if and only if nobody holds the key, and then the
      owner does, for the TTL or the default; otherwise it leaves the bucket as it was. */
  lemma AcquireAlone(cfg: Config, s: Sys, owner: Owner, ttl: int)
    requires CanMove(cfg, s, Idle, Acquire(owner, ttl))
    ensures var (slot, reply) := Finish(cfg, s, MoveOf(cfg, s, Idle, Acquire(owner, ttl)).pc);
            && (reply == Some(Yes) <==> Takeable(cfg, s.slot, s.now))
            && (reply == Some(Error) <==> Garbled(cfg, s.slot))
            && (if reply == Some(Yes)
                then HoldsLease(cfg, slot, owner, s.now, s.now + if ttl > 0 then ttl else cfg.defaultTTL)
                else slot == s.slot)
  {
    if cfg.bucketTTL {
      CreateAlone(cfg, s, owner, owner);
    } else {
      var e := ExpiringMap.Expiry(s.now, ttl, cfg.defaultTTL);
      var body := NatsEnvelope.Encode(owner, e);
      NatsEnvelope.RoundTrip(owner, e, cfg.json);
      if s.slot.Entry? {
        SeenAlone(cfg, s, owner, body);
        assert Finish(cfg, s, AcqGet(owner, body)) == Finish(cfg, s, AcqSeen(owner, body, s.slot.rev, s.slot.body));
      } else {
        CreateAlone(cfg, s, owner, body);
        assert Finish(cfg, s, AcqGet(owner, body)) == Finish(cfg, s, AcqCreate(owner, body));
      }
    }
  }

  /** The entry is the owner's and has not run out. */
  predicate Releasable(cfg: Config, slot: Slot, owner: Owner, now: int) {
    && slot.Entry?
    && if cfg.bucketTTL then slot.body == owner
       else match NatsEnvelope.Decode(slot.body, cfg.json)
            case Corrupt => false
            case Plain => slot.body == owner
            case Wrapped(value, stamp) => value == owner && (stamp <= 0 || now <= stamp)
  }

  /** An undisturbed LockRelease answers yes if and only if the lease is live with its owner's
      token, and then the key is free; otherwise it leaves the bucket as it was. */
  lemma ReleaseAlone(cfg: Config, s: Sys, owner: Owner)
    ensures var (slot, reply) := Finish(cfg, s, MoveOf(cfg, s, Idle, Release(owner)).pc);
            && (reply == Some(Yes) <==> Releasable(cfg, s.slot, owner, s.now))
            && (reply == Some(Error) <==> Garbled(cfg, s.slot))
            && slot == if reply == Some(Yes) then Marker(s.last + 1) else s.slot
  {
    if s.slot.Entry? {
      var seen := RelSeen(owner, s.slot.rev, s.slot.body);
      assert Finish(cfg, s, RelGet(owner)) == Finish(cfg, s, seen);
      assert Finish(cfg, s, RelDelete(owner, s.slot.rev)) == (Marker(s.last + 1), Some(Yes));
    }
  }
}
