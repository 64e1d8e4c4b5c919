/** The abstract lease: one lock key, one clock, and the history of every grant.
    Each backend's split steps are shown to refine `Step`; the safety theorems
    are proved here once. */
module LeaseMachine {
  import opened Bytes

  type Owner = bytes

  datatype Lease = Lease(owner: Owner, expiry: int)

  /** How a grant was cut short: by a release, at a clock reading, on behalf of an owner. */
  datatype Ending = Open | Released(at: int, who: Owner)

  /** A grant runs from the successful write to the earlier of release and expiry. */
  datatype Grant = Grant(owner: Owner, start: int, expiry: int, ending: Ending)

  ghost predicate HoldsAt(g: Grant, t: int) {
    g.start <= t <= g.expiry && (g.ending.Released? ==> t < g.ending.at)
  }

  /** What a lock call answers. */
  datatype Reply = Yes | No | Error

  /** What a backend step did to the stored lock entry. */
  datatype Event =
    | Quiet
    | Tick(to: int)
    | Granted(owner: Owner, expiry: int)
    | Removed(who: Owner)
    | Reaped

  /** The history is a function of the events and the clock alone. */
  function Logged(hist: seq<Grant>, now: int, ev: Event): (h: seq<Grant>)
    ensures |h| >= |hist|
  {
    match ev
    case Granted(owner, expiry) => hist + [Grant(owner, now, expiry, Open)]
    case Removed(who) =>
      if hist == [] then hist
      else hist[|hist| - 1 := hist[|hist| - 1].(ending := Released(now, who))]
    case _ => hist
  }

  function Clock(now: int, ev: Event): int {
    if ev.Tick? then ev.to else now
  }

  datatype State = State(now: int, cur: Option<Lease>, hist: seq<Grant>)

  /** One abstract step. A lease is granted only when none is stored or the stored
      one has run out; only its own owner's release removes it. */
  ghost predicate Step(a: State, ev: Event, b: State) {
    && b.now == Clock(a.now, ev)
    && b.hist == Logged(a.hist, a.now, ev)
    && match ev
       case Quiet => b.cur == a.cur
       case Tick(to) => a.now <= to && b.cur == a.cur
       case Granted(owner, expiry) =>
         && (a.cur.Some? ==> a.cur.value.expiry < a.now)
         && b.cur == Some(Lease(owner, expiry))
       case Removed(who) => a.cur.Some? && a.cur.value.owner == who && b.cur == None
       case Reaped => a.cur.Some? && a.cur.value.expiry < a.now && b.cur == None
  }

  ghost predicate Init(a: State) {
    a.cur == None && a.hist == []
  }

  /** `g` was over no later than time `t`. */
  ghost predicate OverBy(g: Grant, t: int) {
    g.expiry < t || (g.ending.Released? && g.ending.at <= t)
  }

  ghost predicate Inv(a: State) {
    && (forall i :: 0 <= i < |a.hist| ==> a.hist[i].start <= a.now)
    && (forall i, j :: 0 <= i < j < |a.hist| ==> OverBy(a.hist[i], a.hist[j].start))
    && (forall i :: 0 <= i < |a.hist| && a.hist[i].ending.Released? ==> a.hist[i].ending.who == a.hist[i].owner)
    && (a.cur.Some? ==>
          && a.hist != []
          && var last := a.hist[|a.hist| - 1];
             last.owner == a.cur.value.owner && last.expiry == a.cur.value.expiry && last.ending == Open)
    && (a.cur == None && a.hist != [] ==> OverBy(a.hist[|a.hist| - 1], a.now))
  }

  lemma InitInv(a: State)
    requires Init(a)
    ensures Inv(a)
  {
  }

  lemma StepInv(a: State, ev: Event, b: State)
    requires Inv(a) && Step(a, ev, b)
    ensures Inv(b)
  {
    if ev.Granted? && a.hist != [] {
      forall i | 0 <= i < |a.hist| ensures OverBy(a.hist[i], a.now) {
        if i < |a.hist| - 1 {
          assert OverBy(a.hist[i], a.hist[|a.hist| - 1].start);
        }
      }
    }
  }

  /** At no instant do two different grants of the key both hold. */
  ghost predicate MutuallyExclusive(hist: seq<Grant>) {
    forall i, j, t: int :: 0 <= i < j < |hist| ==> !(HoldsAt(hist[i], t) && HoldsAt(hist[j], t))
  }

  /** Nobody's grant was ever ended by somebody else's release. */
  ghost predicate OnlyOwnersRelease(hist: seq<Grant>) {
    forall i :: 0 <= i < |hist| && hist[i].ending.Released? ==> hist[i].ending.who == hist[i].owner
  }

  lemma InvIsSafe(a: State)
    requires Inv(a)
    ensures MutuallyExclusive(a.hist)
    ensures OnlyOwnersRelease(a.hist)
  {
    forall i, j, t: int | 0 <= i < j < |a.hist|
      ensures !(HoldsAt(a.hist[i], t) && HoldsAt(a.hist[j], t))
    {
      assert OverBy(a.hist[i], a.hist[j].start);
    }
  }
}
