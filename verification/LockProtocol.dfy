/** Many Cache instances, lock handles and threads over one memory store: direct
    locks, handle locks and background refresh, with every mutex section and
    every backend call a step of its own. */
module LockProtocol {
  import opened Bytes
  import opened ExpiringMap
  import opened DirectLocks

  type Tid = nat
  type CacheId = nat
  type HandleId = nat

  /** Owner tokens are random and never collide, so a token is its owner. */
  datatype Token = OfCache(c: CacheId) | OfHandle(h: HandleId)

  /** A handle with all its context clones; `acquired` and `released` count the
      backend calls that succeeded and play no part in the protocol. */
  datatype Handle = Handle(key: Key, held: bool, mu: Option<Tid>, acquired: nat, released: nat)

  // "__refresh_lock:"
  const REFRESH_LOCK_PREFIX: bytes := [95, 95, 114, 101, 102, 114, 101, 115, 104, 95, 108, 111, 99, 107, 58]

  predicate IsRefreshKey(k: Key) {
    REFRESH_LOCK_PREFIX <= k
  }

  /** Refresh keys start with the bytes of "__refresh_lock:". */
  lemma RefreshKeysWrittenOut(k: Key)
    ensures IsRefreshKey(k) <==>
              |k| >= 15 && k[..15] == [95, 95, 114, 101, 102, 114, 101, 115, 104, 95, 108, 111, 99, 107, 58]
  {
  }

  /** `retries` tells Lock and Block from the single attempts, `refresh` marks the goroutine of a
      background refresh, `callback` the callers that go on to run a function. */
  datatype Pc =
    | Idle
    | Acquire(c: CacheId, k: Key, ttl: int, retries: bool, refresh: bool)
    | Acquired(c: CacheId, k: Key, ok: bool, refresh: bool)
    | Loading(c: CacheId, k: Key)
    | Release(c: CacheId, k: Key)
    | Released(c: CacheId, k: Key, ok: bool)
    | HandleAcquire(h: HandleId, ttl: int, retries: bool, callback: bool)
    | HandleAcquired(h: HandleId, ok: bool, callback: bool)
    | InCallback(h: HandleId)
    | HandleRelease(h: HandleId)
    | HandleReleased(h: HandleId, ok: bool)

  /** `until` records, for each owner and key, the expiration of its latest grant. */
  datatype Sys = Sys(
    now: int,
    store: map<Key, Item<Token>>,
    tables: map<CacheId, Table>,
    handles: map<HandleId, Handle>,
    threads: map<Tid, Pc>,
    until: map<(Token, Key), int>)

  datatype DirectAct =
    | BeginAcquire(c: CacheId, k: Key, ttl: int, retries: bool, refresh: bool)
    | CallAcquire(errs: bool)
    | GiveUp
    | FinishAcquire
    | BeginRelease(c: CacheId, k: Key)
    | EndLoad
    | CallRelease(errs: bool)
    | FinishRelease

  datatype HandleAct =
    | EnterAcquire(h: HandleId, ttl: int, retries: bool, callback: bool)
    | TryAcquire(errs: bool)
    | StopTrying
    | LeaveAcquire
    | EnterRelease(h: HandleId)
    | EndCallback
    | TryRelease(errs: bool)
    | LeaveRelease

  datatype Label =
    | Advance(to: int)
    | Janitor(k: Key)
    | NewHandle(h: HandleId, k: Key)
    | Direct(tid: Tid, act: DirectAct)
    | OnHandle(tid: Tid, op: HandleAct)

  function PcOf(s: Sys, tid: Tid): Pc {
    if tid in s.threads then s.threads[tid] else Idle
  }

  function TableOf(s: Sys, c: CacheId): Table {
    if c in s.tables then s.tables[c] else map[]
  }

  function Entry(s: Sys, c: CacheId, k: Key): Option<Status> {
    StatusOf(TableOf(s, c), k)
  }

  predicate CanDirect(s: Sys, pc: Pc, act: DirectAct) {
    match act
    case BeginAcquire(c, k, ttl, retries, refresh) =>
      pc.Idle? && CanBeginAcquire(TableOf(s, c), k) && (refresh ==> IsRefreshKey(k) && !retries)
    case CallAcquire(errs) => pc.Acquire?
    case GiveUp => pc.Acquire? && pc.retries
    case FinishAcquire => pc.Acquired?
    case BeginRelease(c, k) => (pc.Idle? || pc == Loading(c, k)) && CanBeginRelease(TableOf(s, c), k)
    case EndLoad => pc.Loading? && !CanBeginRelease(TableOf(s, pc.c), pc.k)
    case CallRelease(errs) => pc.Release?
    case FinishRelease => pc.Released?
  }

  predicate CanHandle(s: Sys, pc: Pc, op: HandleAct) {
    match op
    case EnterAcquire(h, ttl, retries, callback) =>
      pc.Idle? && h in s.handles && s.handles[h].mu == None && !s.handles[h].held
    case TryAcquire(errs) => pc.HandleAcquire? && pc.h in s.handles
    case StopTrying => pc.HandleAcquire? && pc.h in s.handles && pc.retries
    case LeaveAcquire => pc.HandleAcquired? && pc.h in s.handles
    case EnterRelease(h) =>
      (pc.Idle? || pc == InCallback(h)) && h in s.handles && s.handles[h].mu == None && s.handles[h].held
    case EndCallback => pc.InCallback? && pc.h in s.handles && s.handles[pc.h].mu == None && !s.handles[pc.h].held
    case TryRelease(errs) => pc.HandleRelease? && pc.h in s.handles
    case LeaveRelease => pc.HandleReleased? && pc.h in s.handles
  }

  predicate Enabled(s: Sys, l: Label) {
    match l
    case Advance(to) => s.now <= to
    case Janitor(k) => k in s.store && !Live(s.store[k], s.now)
    case NewHandle(h, k) => h !in s.handles
    case Direct(tid, act) => CanDirect(s, PcOf(s, tid), act)
    case OnHandle(tid, op) => CanHandle(s, PcOf(s, tid), op)
  }

  /** What a backend call leaves: the stored entries and the grant book. */
  datatype Backend = Backend(entries: map<Key, Item<Token>>, until: map<(Token, Key), int>)

  predicate Wins(s: Sys, k: Key, ttl: int, errs: bool) {
    ttl > 0 && !errs && Find(s.store, k, s.now) == None
  }

  /** A backend acquisition attempt: the memory store's `LockAcquire`, behind the TTL check. */
  function Attempt(s: Sys, k: Key, token: Token, ttl: int, errs: bool): Backend {
    if Wins(s, k, ttl, errs)
    then Backend(AddIfAbsent(s.store, k, token, s.now + ttl, s.now), s.until[(token, k) := s.now + ttl])
    else Backend(s.store, s.until)
  }

  /** A backend release attempt: the memory store's `LockRelease`. */
  function Drop(s: Sys, k: Key, token: Token, errs: bool): Backend {
    Backend(if errs then s.store else RemoveIfOwner(s.store, k, token, s.now), s.until)
  }

  /** The effect of a direct-lock step on its own thread, the store and the table of
      the Cache `c` it works for. */
  datatype DirectEffect = DirectEffect(pc: Pc, backend: Backend, c: CacheId, table: Table)

  function DoDirect(s: Sys, pc: Pc, act: DirectAct): DirectEffect
    requires CanDirect(s, pc, act)
  {
    var same := Backend(s.store, s.until);
    match act
    case BeginAcquire(c, k, ttl, retries, refresh) =>
      DirectEffect(Acquire(c, k, ttl, retries, refresh), same, c, TableOf(s, c)[k := Acquiring])
    case CallAcquire(errs) =>
      var won := Wins(s, pc.k, pc.ttl, errs);
      var again := pc.retries && !won && pc.ttl > 0 && !errs;
      DirectEffect(if again then pc else Acquired(pc.c, pc.k, won, pc.refresh),
                   Attempt(s, pc.k, OfCache(pc.c), pc.ttl, errs), pc.c, TableOf(s, pc.c))
    case GiveUp =>
      DirectEffect(Acquired(pc.c, pc.k, false, pc.refresh), same, pc.c, TableOf(s, pc.c))
    case FinishAcquire =>
      DirectEffect(if pc.ok && pc.refresh then Loading(pc.c, pc.k) else Idle,
                   same, pc.c, FinishedAcquire(TableOf(s, pc.c), pc.k, pc.ok))
    case BeginRelease(c, k) =>
      DirectEffect(Release(c, k), same, c, TableOf(s, c)[k := Releasing])
    case EndLoad =>
      DirectEffect(Idle, same, pc.c, TableOf(s, pc.c))
    case CallRelease(errs) =>
      DirectEffect(Released(pc.c, pc.k, !errs), Drop(s, pc.k, OfCache(pc.c), errs), pc.c, TableOf(s, pc.c))
    case FinishRelease =>
      DirectEffect(Idle, same, pc.c, FinishedRelease(TableOf(s, pc.c), pc.k, pc.ok))
  }

  /** The effect of a handle step on its own thread, the store and the handle `h`. */
  datatype HandleEffect = HandleEffect(pc: Pc, backend: Backend, h: HandleId, handle: Handle)

  function DoHandle(s: Sys, tid: Tid, pc: Pc, op: HandleAct): HandleEffect
    requires CanHandle(s, pc, op)
  {
    var same := Backend(s.store, s.until);
    match op
    case EnterAcquire(h, ttl, retries, callback) =>
      HandleEffect(HandleAcquire(h, ttl, retries, callback), same, h, s.handles[h].(mu := Some(tid)))
    case TryAcquire(errs) =>
      var l := s.handles[pc.h];
      var won := Wins(s, l.key, pc.ttl, errs);
      var again := pc.retries && !won && pc.ttl > 0 && !errs;
      HandleEffect(if again then pc else HandleAcquired(pc.h, won, pc.callback),
                   Attempt(s, l.key, OfHandle(pc.h), pc.ttl, errs),
                   pc.h, if won then l.(acquired := l.acquired + 1) else l)
    case StopTrying =>
      HandleEffect(HandleAcquired(pc.h, false, pc.callback), same, pc.h, s.handles[pc.h])
    case LeaveAcquire =>
      HandleEffect(if pc.ok && pc.callback then InCallback(pc.h) else Idle,
                   same, pc.h, s.handles[pc.h].(mu := None, held := pc.ok))
    case EnterRelease(h) =>
      HandleEffect(HandleRelease(h), same, h, s.handles[h].(mu := Some(tid), held := false))
    case EndCallback =>
      HandleEffect(Idle, same, pc.h, s.handles[pc.h])
    case TryRelease(errs) =>
      var l := s.handles[pc.h];
      HandleEffect(HandleReleased(pc.h, !errs), Drop(s, l.key, OfHandle(pc.h), errs),
                   pc.h, if errs then l else l.(released := l.released + 1))
    case LeaveRelease =>
      HandleEffect(Idle, same, pc.h, s.handles[pc.h].(mu := None, held := !pc.ok))
  }

  function Apply(s: Sys, l: Label): Sys
    requires Enabled(s, l)
  {
    match l
    case Advance(to) => s.(now := to)
    case Janitor(k) => s.(store := s.store - {k})
    case NewHandle(h, k) => s.(handles := s.handles[h := Handle(k, false, None, 0, 0)])
    case Direct(tid, act) =>
      var e := DoDirect(s, PcOf(s, tid), act);
      s.(store := e.backend.entries, until := e.backend.until,
         tables := s.tables[e.c := e.table], threads := s.threads[tid := e.pc])
    case OnHandle(tid, op) =>
      var e := DoHandle(s, tid, PcOf(s, tid), op);
      s.(store := e.backend.entries, until := e.backend.until,
         handles := s.handles[e.h := e.handle], threads := s.threads[tid := e.pc])
  }

  ghost predicate Init(s: Sys) {
    && s.now > 0
    && s.store == map[] && s.tables == map[] && s.handles == map[] && s.threads == map[] && s.until == map[]
  }

  // ----------------------------------------------------------- direct lifecycle

  /** The thread is between the two halves of a direct acquire or release of (c, k). */
  predicate Busy(pc: Pc, c: CacheId, k: Key) {
    (pc.Acquire? || pc.Acquired? || pc.Release? || pc.Released?) && pc.c == c && pc.k == k
  }

  function Phase(pc: Pc): Status {
    if pc.Acquire? || pc.Acquired? then Acquiring else Releasing
  }

  /** `t` is the one thread inside an acquire or release of (c, k), on side `phase`. */
  ghost predicate Sole(s: Sys, t: Tid, c: CacheId, k: Key, phase: Status) {
    && Busy(PcOf(s, t), c, k) && Phase(PcOf(s, t)) == phase
    && forall u :: Busy(PcOf(s, u), c, k) ==> u == t
  }

  /** At rest or held, no thread is inside an acquire or release of (c, k); otherwise
      exactly one is, on the side the table says. */
  ghost predicate EntryOk(s: Sys, c: CacheId, k: Key) {
    match Entry(s, c, k)
    case Some(Acquiring) => exists t :: Sole(s, t, c, k, Acquiring)
    case Some(Releasing) => exists t :: Sole(s, t, c, k, Releasing)
    case _ => forall t :: !Busy(PcOf(s, t), c, k)
  }

  ghost predicate DirectInv(s: Sys) {
    forall c, k :: EntryOk(s, c, k)
  }

  /** What a direct step does to its own thread and to the entry of key `k` in the
      table of the Cache it works for. */
  lemma DirectFrame(s: Sys, pc: Pc, act: DirectAct, c: CacheId, k: Key)
    requires CanDirect(s, pc, act)
    ensures var e := DoDirect(s, pc, act);
            var was, turns := Entry(s, c, k), if e.c == c then StatusOf(e.table, k) else Entry(s, c, k);
            if (act.BeginAcquire? || act.BeginRelease?) && act.c == c && act.k == k then
              && !Busy(pc, c, k) && Busy(e.pc, c, k)
              && was == (if act.BeginAcquire? then None else Some(Held))
              && turns == Some(Phase(e.pc))
            else if (act.FinishAcquire? || act.FinishRelease?) && Busy(pc, c, k) then
              && !Busy(e.pc, c, k)
              && turns == (if act.FinishAcquire? == pc.ok then Some(Held) else None)
            else
              && turns == was
              && (Busy(e.pc, c, k) <==> Busy(pc, c, k))
              && (Busy(pc, c, k) ==> Phase(e.pc) == Phase(pc))
  {
  }

  lemma HandlePcsAreNotBusy(s: Sys, tid: Tid, op: HandleAct, c: CacheId, k: Key)
    requires CanHandle(s, PcOf(s, tid), op)
    ensures !Busy(PcOf(s, tid), c, k) && !Busy(DoHandle(s, tid, PcOf(s, tid), op).pc, c, k)
  {
  }

  /** A step moves no thread but its own. */
  lemma OthersStay(s: Sys, l: Label)
    requires Enabled(s, l)
    ensures forall u :: PcOf(Apply(s, l), u) == PcOf(s, u) || ((l.Direct? || l.OnHandle?) && u == l.tid)
  {
  }

  /** A step that leaves the entry alone and its thread as busy as before. */
  lemma EntryUnmoved(s: Sys, s': Sys, tid: Tid, c: CacheId, k: Key)
    requires EntryOk(s, c, k) && Entry(s', c, k) == Entry(s, c, k)
    requires forall u :: u != tid ==> PcOf(s', u) == PcOf(s, u)
    requires Busy(PcOf(s', tid), c, k) <==> Busy(PcOf(s, tid), c, k)
    requires Busy(PcOf(s, tid), c, k) ==> Phase(PcOf(s', tid)) == Phase(PcOf(s, tid))
    ensures EntryOk(s', c, k)
  {
    assert forall u :: Busy(PcOf(s', u), c, k) <==> Busy(PcOf(s, u), c, k);
    var was := Entry(s, c, k);
    if was == Some(Acquiring) || was == Some(Releasing) {
      var t :| Sole(s, t, c, k, was.value);
      assert Sole(s', t, c, k, was.value);
    }
  }

  lemma EntryDirectStep(s: Sys, tid: Tid, act: DirectAct, c: CacheId, k: Key)
    requires EntryOk(s, c, k) && CanDirect(s, PcOf(s, tid), act)
    ensures EntryOk(Apply(s, Direct(tid, act)), c, k)
  {
    var pc, s' := PcOf(s, tid), Apply(s, Direct(tid, act));
    OthersStay(s, Direct(tid, act));
    DirectFrame(s, pc, act, c, k);
    if (act.BeginAcquire? || act.BeginRelease?) && act.c == c && act.k == k {
      assert Sole(s', tid, c, k, Phase(PcOf(s', tid)));
    } else if (act.FinishAcquire? || act.FinishRelease?) && Busy(pc, c, k) {
      assert forall u :: Busy(PcOf(s, u), c, k) ==> u == tid;
    } else {
      EntryUnmoved(s, s', tid, c, k);
    }
  }

  lemma EntryStep(s: Sys, l: Label, c: CacheId, k: Key)
    requires EntryOk(s, c, k) && Enabled(s, l)
    ensures EntryOk(Apply(s, l), c, k)
  {
    OthersStay(s, l);
    if l.Direct? {
      EntryDirectStep(s, l.tid, l.act, c, k);
    } else if l.OnHandle? {
      HandlePcsAreNotBusy(s, l.tid, l.op, c, k);
      EntryUnmoved(s, Apply(s, l), l.tid, c, k);
    } else {
      EntryUnmoved(s, Apply(s, l), 0, c, k);
    }
  }

  lemma DirectStep(s: Sys, l: Label)
    requires DirectInv(s) && Enabled(s, l)
    ensures DirectInv(Apply(s, l))
  {
    forall c: CacheId, k: Key ensures EntryOk(Apply(s, l), c, k) {
      EntryStep(s, l, c, k);
    }
  }

  // ----------------------------------------------------------- handle lifecycle

  /** The thread holds the operation mutex of `h`. */
  predicate Inside(pc: Pc, h: HandleId) {
    (pc.HandleAcquire? || pc.HandleAcquired? || pc.HandleRelease? || pc.HandleReleased?) && pc.h == h
  }

  /** Inside the mutex with a backend acquisition not yet matched by a release. */
  predicate Owes(pc: Pc) {
    || (pc.HandleAcquired? && pc.ok)
    || pc.HandleRelease?
    || (pc.HandleReleased? && !pc.ok)
  }

  /** The handle's books: a thread in the mutex means not held, and successful backend
      acquisitions are ahead of successful releases by one exactly while the handle is
      held or its mutex holder still owes a release. */
  predicate Balanced(l: Handle, holder: Pc) {
    && (l.mu.Some? ==> !l.held)
    && l.acquired == l.released + if l.held || (l.mu.Some? && Owes(holder)) then 1 else 0
  }

  predicate HandleOk(s: Sys, h: HandleId)
    requires h in s.handles
  {
    var l := s.handles[h];
    && (l.mu.Some? ==> Inside(PcOf(s, l.mu.value), h))
    && Balanced(l, if l.mu.Some? then PcOf(s, l.mu.value) else Idle)
  }

  ghost predicate ThreadOk(s: Sys, t: Tid) {
    var pc := PcOf(s, t);
    forall h :: Inside(pc, h) || pc == InCallback(h) ==>
      h in s.handles && (Inside(pc, h) ==> s.handles[h].mu == Some(t))
  }

  ghost predicate HandleInv(s: Sys) {
    && (forall t :: ThreadOk(s, t))
    && (forall h :: h in s.handles ==> HandleOk(s, h))
  }

  lemma HandleFrame(s: Sys, tid: Tid, op: HandleAct)
    requires CanHandle(s, PcOf(s, tid), op)
    requires ThreadOk(s, tid)
    requires forall h :: h in s.handles ==> HandleOk(s, h)
    ensures var pc, e := PcOf(s, tid), DoHandle(s, tid, PcOf(s, tid), op);
            && e.h in s.handles
            && e.handle.key == s.handles[e.h].key
            && (Inside(e.pc, e.h) <==> e.handle.mu == Some(tid))
            && (e.handle.mu.Some? ==> e.handle.mu == Some(tid))
            && (s.handles[e.h].mu.Some? ==> s.handles[e.h].mu == Some(tid))
            && (forall h :: Inside(e.pc, h) || e.pc == InCallback(h) || Inside(pc, h) ==> h == e.h)
            && Balanced(e.handle, if e.handle.mu.Some? then e.pc else Idle)
  {
    var pc := PcOf(s, tid);
    var h := if op.EnterAcquire? || op.EnterRelease? then op.h else pc.h;
    assert HandleOk(s, h);
  }

  lemma DirectPcsAreOutside(s: Sys, pc: Pc, act: DirectAct, h: HandleId)
    requires CanDirect(s, pc, act)
    ensures !Inside(pc, h) && !Inside(DoDirect(s, pc, act).pc, h) && DoDirect(s, pc, act).pc != InCallback(h)
  {
  }

  /** The step works on handle `h`. */
  predicate WorksOn(s: Sys, l: Label, h: HandleId)
    requires Enabled(s, l)
  {
    l.OnHandle? && DoHandle(s, l.tid, PcOf(s, l.tid), l.op).h == h
  }

  /** Any other step leaves the handle and the holder of its mutex where they were. */
  lemma HandleUnmoved(s: Sys, l: Label, h: HandleId)
    requires HandleInv(s) && Enabled(s, l) && h in s.handles && !WorksOn(s, l, h)
    ensures var s' := Apply(s, l);
            && h in s'.handles && s'.handles[h] == s.handles[h]
            && (s.handles[h].mu.Some? ==> PcOf(s', s.handles[h].mu.value) == PcOf(s, s.handles[h].mu.value))
  {
    OthersStay(s, l);
    assert HandleOk(s, h);
    if l.OnHandle? {
      HandleFrame(s, l.tid, l.op);
    } else if l.Direct? {
      DirectPcsAreOutside(s, PcOf(s, l.tid), l.act, h);
    }
  }

  lemma ThreadStep(s: Sys, l: Label, t: Tid)
    requires HandleInv(s) && Enabled(s, l)
    ensures ThreadOk(Apply(s, l), t)
  {
    OthersStay(s, l);
    assert ThreadOk(s, t);
    if l.OnHandle? {
      HandleFrame(s, l.tid, l.op);
    } else if l.Direct? {
      forall h: HandleId
        ensures !Inside(PcOf(Apply(s, l), l.tid), h) && PcOf(Apply(s, l), l.tid) != InCallback(h)
      {
        DirectPcsAreOutside(s, PcOf(s, l.tid), l.act, h);
      }
    }
  }

  lemma HandleOkStep(s: Sys, l: Label, h: HandleId)
    requires HandleInv(s) && Enabled(s, l) && h in Apply(s, l).handles
    ensures HandleOk(Apply(s, l), h)
  {
    if WorksOn(s, l, h) {
      HandleFrame(s, l.tid, l.op);
    } else if h in s.handles {
      HandleUnmoved(s, l, h);
      assert HandleOk(s, h);
    }
  }

  lemma HandleStep(s: Sys, l: Label)
    requires HandleInv(s) && Enabled(s, l)
    ensures HandleInv(Apply(s, l))
  {
    forall t: Tid
      ensures ThreadOk(Apply(s, l), t)
    {
      ThreadStep(s, l, t);
    }
    forall h | h in Apply(s, l).handles
      ensures HandleOk(Apply(s, l), h)
    {
      HandleOkStep(s, l, h);
    }
  }

  // ------------------------------------------------------------------ ownership

  /** A live entry under `k` carries `token`. */
  predicate Holds(s: Sys, k: Key, token: Token) {
    Find(s.store, k, s.now) == Some(token)
  }

  /** Points of an operation at which its token is certainly not in the store: before
      a successful acquisition and after a successful release. */
  predicate Clean(pc: Pc) {
    || pc.Acquire? || (pc.Acquired? && !pc.ok) || (pc.Released? && pc.ok)
    || pc.HandleAcquire? || (pc.HandleAcquired? && !pc.ok) || (pc.HandleReleased? && pc.ok)
  }

  ghost predicate CacheClean(s: Sys, c: CacheId, k: Key) {
    && (Entry(s, c, k) == None ==> !Holds(s, k, OfCache(c)))
    && (forall t :: Busy(PcOf(s, t), c, k) && Clean(PcOf(s, t)) ==> !Holds(s, k, OfCache(c)))
  }

  predicate HandleClean(s: Sys, h: HandleId, k: Key) {
    Holds(s, k, OfHandle(h)) ==>
      && h in s.handles && s.handles[h].key == k
      && (s.handles[h].mu == None ==> s.handles[h].held)
      && (s.handles[h].mu.Some? ==> !Clean(PcOf(s, s.handles[h].mu.value)))
  }

  ghost predicate OwnInv(s: Sys) {
    && (forall c, k :: CacheClean(s, c, k))
    && (forall h, k :: HandleClean(s, h, k))
  }

  /** Only a winning backend attempt under a token makes an entry with that token. */
  lemma NewHolding(s: Sys, l: Label, k: Key, token: Token)
    requires Enabled(s, l) && Holds(Apply(s, l), k, token) && !Holds(s, k, token)
    ensures l.Direct? || l.OnHandle?
    ensures var pc, pc' := PcOf(s, l.tid), PcOf(Apply(s, l), l.tid);
            if l.Direct? then
              pc.Acquire? && token == OfCache(pc.c) && k == pc.k && pc'.Acquired? && pc'.ok && Busy(pc', pc.c, k)
            else
              && pc.HandleAcquire? && token == OfHandle(pc.h) && pc.h in s.handles && k == s.handles[pc.h].key
              && pc'.HandleAcquired? && pc'.ok && pc'.h == pc.h
  {
  }

  lemma CacheCleanStep(s: Sys, l: Label, c: CacheId, k: Key)
    requires Enabled(s, l) && EntryOk(s, c, k) && CacheClean(s, c, k)
    ensures CacheClean(Apply(s, l), c, k)
  {
    var s' := Apply(s, l);
    if Holds(s', k, OfCache(c)) {
      OthersStay(s, l);
      EntryStep(s, l, c, k);
      if l.Direct? {
        DirectFrame(s, PcOf(s, l.tid), l.act, c, k);
      } else if l.OnHandle? {
        HandlePcsAreNotBusy(s, l.tid, l.op, c, k);
      }
      if !Holds(s, k, OfCache(c)) {
        NewHolding(s, l, k, OfCache(c));
      }
    }
  }

  lemma HandleCleanStep(s: Sys, l: Label, h: HandleId, k: Key)
    requires Enabled(s, l) && HandleInv(s) && HandleClean(s, h, k)
    ensures HandleClean(Apply(s, l), h, k)
  {
    if Holds(Apply(s, l), k, OfHandle(h)) {
      if !Holds(s, k, OfHandle(h)) {
        NewHolding(s, l, k, OfHandle(h));
        HandleFrame(s, l.tid, l.op);
      } else if WorksOn(s, l, h) {
        HandleFrame(s, l.tid, l.op);
      } else {
        HandleUnmoved(s, l, h);
      }
    }
  }

  // -------------------------------------------------------- exclusion within TTL

  /** The operation is past a winning attempt and not past a successful release. */
  predicate Owing(pc: Pc) {
    (pc.Acquired? && pc.ok) || pc.Release? || (pc.Released? && !pc.ok) || Owes(pc)
  }

  /** The owner's latest grant is still the stored entry, or has run out. */
  predicate Kept(s: Sys, token: Token, k: Key) {
    && (token, k) in s.until
    && (s.until[(token, k)] < s.now || (k in s.store && s.store[k] == Item(token, s.until[(token, k)])))
  }

  ghost predicate CacheKept(s: Sys, c: CacheId, k: Key) {
    && (Entry(s, c, k) == Some(Held) ==> Kept(s, OfCache(c), k))
    && (forall t :: Busy(PcOf(s, t), c, k) && Owing(PcOf(s, t)) ==> Kept(s, OfCache(c), k))
  }

  predicate HandleKept(s: Sys, h: HandleId)
    requires h in s.handles
  {
    var l := s.handles[h];
    && (l.held ==> Kept(s, OfHandle(h), l.key))
    && (l.mu.Some? && Owes(PcOf(s, l.mu.value)) ==> Kept(s, OfHandle(h), l.key))
  }

  /** The grant book has the expiration of every stored entry. */
  predicate Booked(s: Sys, k: Key) {
    k in s.store ==>
      && s.store[k].expiry > 0
      && (s.store[k].value, k) in s.until && s.until[(s.store[k].value, k)] == s.store[k].expiry
  }

  ghost predicate KeptInv(s: Sys) {
    && s.now > 0
    && (forall k :: Booked(s, k))
    && (forall c, k :: CacheKept(s, c, k))
    && (forall h :: h in s.handles ==> HandleKept(s, h))
  }

  /** A backend call that may touch `token`'s own entry under `k`. */
  predicate Touches(s: Sys, l: Label, token: Token, k: Key) {
    match l
    case Direct(tid, act) =>
      var pc := PcOf(s, tid);
      || (act.CallAcquire? && pc.Acquire? && OfCache(pc.c) == token && pc.k == k)
      || (act.CallRelease? && !act.errs && pc.Release? && OfCache(pc.c) == token && pc.k == k)
    case OnHandle(tid, op) =>
      var pc := PcOf(s, tid);
      || (op.TryAcquire? && pc.HandleAcquire? && OfHandle(pc.h) == token)
      || (op.TryRelease? && !op.errs && pc.HandleRelease? && OfHandle(pc.h) == token)
    case _ => false
  }

  /** A running grant survives every step but its owner's own backend calls. */
  lemma KeptStep(s: Sys, l: Label, token: Token, k: Key)
    requires Enabled(s, l) && s.now > 0 && Kept(s, token, k) && !Touches(s, l, token, k)
    ensures Kept(Apply(s, l), token, k)
  {
  }

  lemma BookedStep(s: Sys, l: Label, k: Key)
    requires Enabled(s, l) && s.now > 0 && Booked(s, k)
    ensures Booked(Apply(s, l), k)
  {
  }

  lemma CacheHeldStep(s: Sys, l: Label, c: CacheId, k: Key)
    requires Enabled(s, l) && s.now > 0 && EntryOk(s, c, k) && CacheKept(s, c, k)
    requires Entry(Apply(s, l), c, k) == Some(Held)
    ensures Kept(Apply(s, l), OfCache(c), k)
  {
    if l.Direct? {
      DirectFrame(s, PcOf(s, l.tid), l.act, c, k);
    }
    if Kept(s, OfCache(c), k) && !Touches(s, l, OfCache(c), k) {
      KeptStep(s, l, OfCache(c), k);
    }
  }

  lemma CacheOwingStep(s: Sys, l: Label, c: CacheId, k: Key, t: Tid)
    requires Enabled(s, l) && s.now > 0 && EntryOk(s, c, k) && CacheKept(s, c, k)
    requires Busy(PcOf(Apply(s, l), t), c, k) && Owing(PcOf(Apply(s, l), t))
    ensures Kept(Apply(s, l), OfCache(c), k)
  {
    OthersStay(s, l);
    if l.Direct? {
      DirectFrame(s, PcOf(s, l.tid), l.act, c, k);
    } else if l.OnHandle? {
      HandlePcsAreNotBusy(s, l.tid, l.op, c, k);
    }
    if Kept(s, OfCache(c), k) && !Touches(s, l, OfCache(c), k) {
      KeptStep(s, l, OfCache(c), k);
    }
  }

  lemma CacheKeptStep(s: Sys, l: Label, c: CacheId, k: Key)
    requires Enabled(s, l) && s.now > 0 && EntryOk(s, c, k) && CacheKept(s, c, k)
    ensures CacheKept(Apply(s, l), c, k)
  {
    if Entry(Apply(s, l), c, k) == Some(Held) {
      CacheHeldStep(s, l, c, k);
    }
    forall t: Tid | Busy(PcOf(Apply(s, l), t), c, k) && Owing(PcOf(Apply(s, l), t))
      ensures Kept(Apply(s, l), OfCache(c), k)
    {
      CacheOwingStep(s, l, c, k, t);
    }
  }

  lemma OwnHandleKeptStep(s: Sys, l: Label, h: HandleId)
    requires Enabled(s, l) && s.now > 0 && HandleInv(s) && h in s.handles && HandleKept(s, h) && WorksOn(s, l, h)
    ensures h in Apply(s, l).handles && HandleKept(Apply(s, l), h)
  {
    assert HandleOk(s, h);
    HandleFrame(s, l.tid, l.op);
    var k := s.handles[h].key;
    if Kept(s, OfHandle(h), k) && !Touches(s, l, OfHandle(h), k) {
      KeptStep(s, l, OfHandle(h), k);
    }
  }

  lemma HandleKeptStep(s: Sys, l: Label, h: HandleId)
    requires Enabled(s, l) && s.now > 0 && HandleInv(s) && h in Apply(s, l).handles
    requires h in s.handles ==> HandleKept(s, h)
    ensures HandleKept(Apply(s, l), h)
  {
    if h in s.handles {
      if WorksOn(s, l, h) {
        OwnHandleKeptStep(s, l, h);
      } else {
        HandleUnmoved(s, l, h);
        var k := s.handles[h].key;
        if Kept(s, OfHandle(h), k) {
          KeptStep(s, l, OfHandle(h), k);
        }
      }
    }
  }

  ghost predicate Inv(s: Sys) {
    DirectInv(s) && HandleInv(s) && OwnInv(s) && KeptInv(s)
  }

  lemma StepInv(s: Sys, l: Label)
    requires Inv(s) && Enabled(s, l)
    ensures Inv(Apply(s, l))
  {
    DirectStep(s, l);
    HandleStep(s, l);
    forall c: CacheId, k: Key ensures CacheClean(Apply(s, l), c, k) && CacheKept(Apply(s, l), c, k) {
      CacheCleanStep(s, l, c, k);
      CacheKeptStep(s, l, c, k);
    }
    forall h: HandleId, k: Key ensures HandleClean(Apply(s, l), h, k) {
      HandleCleanStep(s, l, h, k);
    }
    forall h | h in Apply(s, l).handles ensures HandleKept(Apply(s, l), h) {
      HandleKeptStep(s, l, h);
    }
    forall k: Key ensures Booked(Apply(s, l), k) {
      BookedStep(s, l, k);
    }
  }
}
