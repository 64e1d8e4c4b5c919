/** `LockAcquire` and `LockRelease` of the file store on one key: critical sections
    of the process-wide directory mutex, split at every file operation and clock
    reading. The stored entry is the record file itself. */
module FileLease {
  import opened Bytes
  import opened LeaseMachine
  import opened FileRecord
  import ExpiringMap

  type Tid = nat

  datatype Config = Config(key: bytes, defaultTTL: int, json: JsonReader)

  /** What the holder of the mutex has been called to do. */
  datatype Task = Acquire(owner: Owner, ttl: int) | Release(owner: Owner)

  datatype Pc =
    | Idle
    | Waiting(task: Task)
    | Reading(task: Task)
    | Checking(task: Task, data: bytes)
    | Discarding(task: Task)
    | Removing(task: Task)
    | Stamping(task: Task)
    | Renaming(task: Task, data: bytes, expiresAt: int)
    | Deleting(task: Task)
    | Leaving(reply: Reply)

  /** `Fail` is a file operation that errs without effect. */
  datatype Choice = Call(task: Task) | Proceed | Fail

  datatype Label = Advance(to: int) | Client(tid: Tid, choice: Choice)

  datatype Sys = Sys(now: int, file: Option<bytes>, mu: Option<Tid>, clients: map<Tid, Pc>, hist: seq<Grant>)

  function PcOf(s: Sys, tid: Tid): Pc {
    if tid in s.clients then s.clients[tid] else Idle
  }

  ghost predicate CanMove(cfg: Config, s: Sys, pc: Pc, choice: Choice) {
    && (pc.Idle? <==> choice.Call?)
    && (pc.Waiting? ==> s.mu == None)
    && (pc.Stamping? ==> pc.task.Acquire? && IsInt64(ExpiringMap.Expiry(s.now, pc.task.ttl, cfg.defaultTTL)))
  }

  datatype Move = Move(pc: Pc, file: Option<bytes>, mu: Option<Tid>, ev: Event, reply: Option<Reply>)

  function Go(s: Sys, pc: Pc): Move {
    Move(pc, s.file, s.mu, Quiet, None)
  }

  /** The record file is gone or expired: an acquisition writes, a release is over. */
  function Missed(task: Task): Pc {
    if task.Acquire? then Stamping(task) else Leaving(No)
  }

  function MoveOf(cfg: Config, s: Sys, tid: Tid, pc: Pc, choice: Choice): Move
    requires CanMove(cfg, s, pc, choice)
  {
    match pc
    case Idle => Go(s, Waiting(choice.task))
    case Waiting(task) => Move(Reading(task), s.file, Some(tid), Quiet, None)
    case Reading(task) =>
      if choice.Fail? then Go(s, Leaving(Error))
      else if s.file.Some? then Go(s, Checking(task, s.file.value))
      else Go(s, Missed(task))
    case Checking(task, data) =>
      (match Decode(data, cfg.json)
       case None => Go(s, Discarding(task))
       case Some(rec) =>
         if Expired(rec, s.now) then Go(s, Removing(task))
         else if task.Release? && rec.value == task.owner then Go(s, Deleting(task))
         else Go(s, Leaving(No)))
    case Discarding(task) =>
      // the result of this removal is ignored by the caller, and so is that of the next one
      if choice.Fail? || s.file == None then Go(s, Leaving(Error))
      else Move(Leaving(Error), None, s.mu, Reaped, None)
    case Removing(task) =>
      if choice.Fail? || s.file == None then Go(s, Missed(task))
      else Move(Missed(task), None, s.mu, Reaped, None)
    case Stamping(task) =>
      var e := ExpiringMap.Expiry(s.now, task.ttl, cfg.defaultTTL);
      Go(s, Renaming(task, Encode(Record(cfg.key, e, task.owner)), e))
    case Renaming(task, data, e) =>
      if choice.Fail? then Go(s, Leaving(Error))
      else Move(Leaving(Yes), Some(data), s.mu, Granted(task.owner, e), None)
    case Deleting(task) =>
      if choice.Fail? then Go(s, Leaving(Error))
      else if s.file == None then Go(s, Leaving(Yes))
      else Move(Leaving(Yes), None, s.mu, Removed(task.owner), None)
    case Leaving(reply) => Move(Idle, s.file, None, Quiet, Some(reply))
  }

  ghost predicate Enabled(cfg: Config, s: Sys, l: Label) {
    match l
    case Advance(to) => s.now <= to
    case Client(tid, choice) => CanMove(cfg, s, PcOf(s, tid), choice)
  }

  ghost function EventOf(cfg: Config, s: Sys, l: Label): Event
    requires Enabled(cfg, s, l)
  {
    match l
    case Advance(to) => Tick(to)
    case Client(tid, choice) => MoveOf(cfg, s, tid, PcOf(s, tid), choice).ev
  }

  ghost function Apply(cfg: Config, s: Sys, l: Label): Sys
    requires Enabled(cfg, s, l)
  {
    match l
    case Advance(to) => s.(now := to)
    case Client(tid, choice) =>
      var m := MoveOf(cfg, s, tid, PcOf(s, tid), choice);
      Sys(s.now, m.file, m.mu, s.clients[tid := m.pc], Logged(s.hist, s.now, m.ev))
  }

  // ------------------------------------------------------------------ refinement

  function LeaseOf(cfg: Config, data: bytes): Lease {
    match Decode(data, cfg.json)
    case Some(rec) => Lease(rec.value, rec.expiresAt)
    case None => Lease(data, 0)
  }

  function Abstraction(cfg: Config, s: Sys): State {
    State(s.now, if s.file.Some? then Some(LeaseOf(cfg, s.file.value)) else None, s.hist)
  }

  ghost predicate Init(s: Sys) {
    s.file == None && s.mu == None && s.clients == map[] && s.hist == []
  }

  /** What the holder of the mutex has learned stays true until it acts. */
  ghost predicate PcInv(cfg: Config, s: Sys, pc: Pc) {
    match pc
    case Checking(task, data) => s.file == Some(data)
    case Discarding(task) => false
    case Removing(task) => s.file.Some? ==> LeaseOf(cfg, s.file.value).expiry < s.now
    case Stamping(task) => task.Acquire? && (s.file.Some? ==> LeaseOf(cfg, s.file.value).expiry < s.now)
    case Renaming(task, data, e) =>
      && task.Acquire? && Decode(data, cfg.json).Some? && LeaseOf(cfg, data) == Lease(task.owner, e)
      && (s.file.Some? ==> LeaseOf(cfg, s.file.value).expiry < s.now)
    case Deleting(task) => s.file.Some? ==> LeaseOf(cfg, s.file.value).owner == task.owner
    case _ => true
  }

  /** No run makes a record that its own reader cannot decode. */
  ghost predicate Decodable(cfg: Config, file: Option<bytes>) {
    file.Some? ==> Decode(file.value, cfg.json).Some?
  }

  ghost predicate Inv(cfg: Config, s: Sys) {
    && Decodable(cfg, s.file)
    && (forall tid :: tid in s.clients ==> s.clients[tid].Idle? || s.clients[tid].Waiting? || s.mu == Some(tid))
    && (forall tid :: tid in s.clients ==> PcInv(cfg, s, s.clients[tid]))
    && LeaseMachine.Inv(Abstraction(cfg, s))
  }

  /** The mover's own part: its next position, the file and the abstract step. */
  lemma MoveRefines(cfg: Config, s: Sys, tid: Tid, pc: Pc, choice: Choice)
    requires |cfg.key| < TWO_32
    requires Decodable(cfg, s.file) && CanMove(cfg, s, pc, choice) && PcInv(cfg, s, pc)
    ensures var m := MoveOf(cfg, s, tid, pc, choice);
            var s' := Sys(s.now, m.file, m.mu, s.clients, Logged(s.hist, s.now, m.ev));
            && Decodable(cfg, m.file) && PcInv(cfg, s', m.pc)
            && LeaseMachine.Step(Abstraction(cfg, s), m.ev, Abstraction(cfg, s'))
  {
    if pc.Stamping? {
      FileRecord.RoundTrip(FileRecord.Record(cfg.key, ExpiringMap.Expiry(s.now, pc.task.ttl, cfg.defaultTTL),
          pc.task.owner), cfg.json);
    }
  }

  lemma ClientStep(cfg: Config, s: Sys, tid: Tid, choice: Choice)
    requires |cfg.key| < TWO_32
    requires Inv(cfg, s) && CanMove(cfg, s, PcOf(s, tid), choice)
    ensures var s' := Apply(cfg, s, Client(tid, choice));
            forall t :: t in s'.clients ==>
              && (s'.clients[t].Idle? || s'.clients[t].Waiting? || s'.mu == Some(t))
              && PcInv(cfg, s', s'.clients[t])
  {
    var s' := Apply(cfg, s, Client(tid, choice));
    assert PcInv(cfg, s, PcOf(s, tid));
    MoveRefines(cfg, s, tid, PcOf(s, tid), choice);
    forall t | t in s'.clients
      ensures s'.clients[t].Idle? || s'.clients[t].Waiting? || s'.mu == Some(t)
      ensures PcInv(cfg, s', s'.clients[t])
    {
      if t != tid {
        assert PcInv(cfg, s, s.clients[t]);
      }
    }
  }

  lemma StepRefines(cfg: Config, s: Sys, l: Label)
    requires |cfg.key| < TWO_32
    requires Inv(cfg, s) && Enabled(cfg, s, l)
    ensures LeaseMachine.Step(Abstraction(cfg, s), EventOf(cfg, s, l), Abstraction(cfg, Apply(cfg, s, l)))
    ensures Inv(cfg, Apply(cfg, s, l))
  {
    if l.Client? {
      assert PcInv(cfg, s, PcOf(s, l.tid));
      MoveRefines(cfg, s, l.tid, PcOf(s, l.tid), l.choice);
      ClientStep(cfg, s, l.tid, l.choice);
    }
    LeaseMachine.StepInv(Abstraction(cfg, s), EventOf(cfg, s, l), Abstraction(cfg, Apply(cfg, s, l)));
  }

  /** No step of a releasing client removes a live record that carries another token. */
  lemma SuccessorSurvives(cfg: Config, s: Sys, tid: Tid, choice: Choice)
    requires Inv(cfg, s) && CanMove(cfg, s, PcOf(s, tid), choice)
    requires !PcOf(s, tid).Idle? && !PcOf(s, tid).Leaving? && PcOf(s, tid).task.Release?
    requires s.file.Some? && LeaseOf(cfg, s.file.value).expiry >= s.now
    requires LeaseOf(cfg, s.file.value).owner != PcOf(s, tid).task.owner
    ensures Apply(cfg, s, Client(tid, choice)).file == s.file
  {
  }

  ghost predicate Run(cfg: Config, run: seq<Sys>, ls: seq<Label>) {
    && |run| == |ls| + 1
    && Init(run[0])
    && forall i :: 0 <= i < |ls| ==> Enabled(cfg, run[i], ls[i]) && run[i + 1] == Apply(cfg, run[i], ls[i])
  }

  lemma {:induction false} RunInv(cfg: Config, run: seq<Sys>, ls: seq<Label>, n: nat)
    requires |cfg.key| < TWO_32
    requires Run(cfg, run, ls) && n < |run|
    ensures Inv(cfg, run[n])
  {
    if n == 0 {
      LeaseMachine.InitInv(Abstraction(cfg, run[0]));
    } else {
      RunInv(cfg, run, ls, n - 1);
      StepRefines(cfg, run[n - 1], ls[n - 1]);
    }
  }

  lemma LeaseSafety(cfg: Config, run: seq<Sys>, ls: seq<Label>, n: nat)
    requires |cfg.key| < TWO_32
    requires Run(cfg, run, ls) && n < |run|
    ensures MutuallyExclusive(run[n].hist)
    ensures OnlyOwnersRelease(run[n].hist)
  {
    RunInv(cfg, run, ls, n);
    LeaseMachine.InvIsSafe(Abstraction(cfg, run[n]));
  }

  /** A file operation that errs ends the call with an error and changes nothing, but for the
      removal of an expired record, whose result nobody looks at. */
  lemma ErrorsAreAnswered(cfg: Config, s: Sys, tid: Tid, pc: Pc)
    requires pc.Reading? || pc.Renaming? || pc.Deleting? || pc.Removing?
    ensures CanMove(cfg, s, pc, Fail) && CanMove(cfg, s, pc, Proceed)
    ensures MoveOf(cfg, s, tid, pc, Fail) ==
              Move(if pc.Removing? then Missed(pc.task) else Leaving(Error), s.file, s.mu, Quiet, None)
  {
  }

  /** What the reader cannot decode is removed, and the call answers with an error. */
  lemma UndecodableIsDiscarded(cfg: Config, s: Sys, tid: Tid, task: Task)
    requires s.file.Some? && Decode(s.file.value, cfg.json) == None
    requires task.Acquire? ==> IsInt64(ExpiringMap.Expiry(s.now, task.ttl, cfg.defaultTTL))
    ensures Finish(cfg, s, tid, Checking(task, s.file.value)) == (None, Some(Error))
  {
    assert Finish(cfg, s, tid, Checking(task, s.file.value)) == Finish(cfg, s, tid, Discarding(task));
    assert Finish(cfg, s, tid, Discarding(task)) == Finish(cfg, s.(file := None), tid, Leaving(Error));
    LeavingAlone(cfg, s.(file := None), tid, Error);
  }

  // ---------------------------------------------------------- whole calls, undisturbed

  function StepsLeft(pc: Pc): nat {
    match pc
    case Idle => 0
    case Leaving(_) => 1
    case Renaming(_, _, _) => 2
    case Deleting(_) => 2
    case Discarding(_) => 2
    case Stamping(_) => 3
    case Removing(_) => 4
    case Checking(_, _) => 5
    case Reading(_) => 6
    case Waiting(_) => 7
  }

  ghost predicate CanFinish(cfg: Config, s: Sys, pc: Pc) {
    && !pc.Idle? && (pc.Waiting? ==> s.mu == None)
    && (!pc.Leaving? && pc.task.Acquire? ==> IsInt64(ExpiringMap.Expiry(s.now, pc.task.ttl, cfg.defaultTTL)))
    && (pc.Stamping? ==> pc.task.Acquire?)
  }

  /** The record file and the answer after a call that goes on from `pc` with nothing in
      between. */
  ghost function Finish(cfg: Config, s: Sys, tid: Tid, pc: Pc): (Option<bytes>, Option<Reply>)
    requires CanFinish(cfg, s, pc)
    decreases StepsLeft(pc)
  {
    var m := MoveOf(cfg, s, tid, pc, Proceed);
    if m.pc.Idle? then (m.file, m.reply) else Finish(cfg, s.(file := m.file, mu := m.mu), tid, m.pc)
  }

  lemma LeavingAlone(cfg: Config, s: Sys, tid: Tid, reply: Reply)
    ensures Finish(cfg, s, tid, Leaving(reply)) == (s.file, Some(reply))
  {
  }

  /** The file decodes to a record with this token and this stamp. */
  ghost predicate Holds(cfg: Config, file: Option<bytes>, owner: Owner, stamp: int) {
    && file.Some? && Decode(file.value, cfg.json).Some?
    && Decode(file.value, cfg.json).value.value == owner && Decode(file.value, cfg.json).value.expiresAt == stamp
  }

  lemma WritingAlone(cfg: Config, s: Sys, tid: Tid, task: Task)
    requires |cfg.key| < TWO_32 && task.Acquire? && CanFinish(cfg, s, Stamping(task))
    ensures var (file, reply) := Finish(cfg, s, tid, Stamping(task));
            reply == Some(Yes) && Holds(cfg, file, task.owner, s.now + if task.ttl > 0 then task.ttl
                else cfg.defaultTTL)
  {
    var e := ExpiringMap.Expiry(s.now, task.ttl, cfg.defaultTTL);
    var data := Encode(Record(cfg.key, e, task.owner));
    RoundTrip(Record(cfg.key, e, task.owner), cfg.json);
    assert Finish(cfg, s, tid, Stamping(task)) == Finish(cfg, s, tid, Renaming(task, data, e));
    LeavingAlone(cfg, s.(file := Some(data)), tid, Yes);
  }

  /** Nobody holds the key: no record, or one whose stamp has passed. */
  ghost predicate Takeable(cfg: Config, file: Option<bytes>, now: int) {
    || file == None
    || (Decode(file.value, cfg.json).Some? && 0 < Decode(file.value, cfg.json).value.expiresAt < now)
  }

  lemma CheckingAlone(cfg: Config, s: Sys, tid: Tid, task: Task)
    requires |cfg.key| < TWO_32 && task.Acquire? && s.file.Some? && Decode(s.file.value, cfg.json).Some?
    requires CanFinish(cfg, s, Checking(task, s.file.value))
    ensures var (file, reply) := Finish(cfg, s, tid, Checking(task, s.file.value));
            && reply == Some(if Takeable(cfg, s.file, s.now) then Yes else No)
            && (reply == Some(No) ==> file == s.file)
            && (reply == Some(Yes) ==>
                  Holds(cfg, file, task.owner, s.now + if task.ttl > 0 then task.ttl else cfg.defaultTTL))
  {
    var pc := Checking(task, s.file.value);
    if Takeable(cfg, s.file, s.now) {
      var s1 := s.(file := None);
      assert Finish(cfg, s, tid, pc) == Finish(cfg, s, tid, Removing(task));
      assert Finish(cfg, s, tid, Removing(task)) == Finish(cfg, s1, tid, Stamping(task));
      WritingAlone(cfg, s1, tid, task);
    } else {
      assert Finish(cfg, s, tid, pc) == Finish(cfg, s, tid, Leaving(No));
      LeavingAlone(cfg, s, tid, No);
    }
  }

  lemma ReadingAlone(cfg: Config, s: Sys, tid: Tid, task: Task)
    requires s.mu == None && CanFinish(cfg, s, Waiting(task))
    ensures var s1 := s.(mu := Some(tid));
            Finish(cfg, s, tid, Waiting(task)) ==
              Finish(cfg, s1, tid, if s.file.Some? then Checking(task, s.file.value) else Missed(task))
  {
    var s1 := s.(mu := Some(tid));
    assert Finish(cfg, s, tid, Waiting(task)) == Finish(cfg, s1, tid, Reading(task));
  }

  /** An undisturbed LockAcquire over readable records answers yes if and only if nobody holds
      the key, and then the owner does, for the TTL or the default; otherwise the record is
      unchanged. */
  lemma AcquireAlone(cfg: Config, s: Sys, tid: Tid, owner: Owner, ttl: int)
    requires |cfg.key| < TWO_32 && s.mu == None && Decodable(cfg, s.file)
    requires IsInt64(ExpiringMap.Expiry(s.now, ttl, cfg.defaultTTL))
    ensures var (file, reply) := Finish(cfg, s, tid, Waiting(Acquire(owner, ttl)));
            && (reply == Some(Yes) <==> Takeable(cfg, s.file, s.now))
            && (reply == Some(Yes) ==> Holds(cfg, file, owner, s.now + if ttl > 0 then ttl else cfg.defaultTTL))
            && (reply != Some(Yes) ==> reply == Some(No) && file == s.file)
  {
    var s1 := s.(mu := Some(tid));
    ReadingAlone(cfg, s, tid, Acquire(owner, ttl));
    if s.file.Some? {
      CheckingAlone(cfg, s1, tid, Acquire(owner, ttl));
    } else {
      WritingAlone(cfg, s1, tid, Acquire(owner, ttl));
    }
  }

  /** The record is the owner's and has not run out. */
  ghost predicate Releasable(cfg: Config, file: Option<bytes>, owner: Owner, now: int) {
    && file.Some? && Decode(file.value, cfg.json).Some?
    && var rec := Decode(file.value, cfg.json).value;
       rec.value == owner && (rec.expiresAt <= 0 || now <= rec.expiresAt)
  }

  /** An undisturbed LockRelease over readable records answers yes if and only if the record is
      live with its owner's token, and then it is gone; otherwise only an expired record goes. */
  lemma ReleaseAlone(cfg: Config, s: Sys, tid: Tid, owner: Owner)
    requires s.mu == None && Decodable(cfg, s.file)
    ensures var (file, reply) := Finish(cfg, s, tid, Waiting(Release(owner)));
            && (reply == Some(Yes) <==> Releasable(cfg, s.file, owner, s.now))
            && (reply != Some(Yes) ==> reply == Some(No))
            && file == if reply == Some(Yes) || Takeable(cfg, s.file, s.now) then None else s.file
  {
    var s1, task := s.(mu := Some(tid)), Release(owner);
    ReadingAlone(cfg, s, tid, task);
    if s.file == None {
      LeavingAlone(cfg, s1, tid, No);
    } else if Takeable(cfg, s.file, s.now) {
      assert Finish(cfg, s1, tid, Checking(task, s.file.value)) == Finish(cfg, s1, tid, Removing(task));
      assert Finish(cfg, s1, tid, Removing(task)) == Finish(cfg, s1.(file := None), tid, Leaving(No));
      LeavingAlone(cfg, s1.(file := None), tid, No);
    } else if Releasable(cfg, s.file, owner, s.now) {
      assert Finish(cfg, s1, tid, Checking(task, s.file.value)) == Finish(cfg, s1, tid, Deleting(task));
      assert Finish(cfg, s1, tid, Deleting(task)) == Finish(cfg, s1.(file := None), tid, Leaving(Yes));
      LeavingAlone(cfg, s1.(file := None), tid, Yes);
    } else {
      assert Finish(cfg, s1, tid, Checking(task, s.file.value)) == Finish(cfg, s1, tid, Leaving(No));
      LeavingAlone(cfg, s1, tid, No);
    }
  }
}
