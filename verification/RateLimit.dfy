/** Fixed-window rate limiting over an expiring counter. */
module RateLimit {
  import opened Bytes
  import opened ExpiringMap
  import MemoryStore

  /** Go's integer division truncates toward zero. */
  function TruncDiv(a: int, b: int): int
    requires b > 0
  {
    if a >= 0 then a / b else -((-a) / b)
  }

  function Bucket(now: int, window: int): int
    requires window > 0
  {
    TruncDiv(now, window)
  }

  function EndOf(bucket: int, window: int): int {
    (bucket + 1) * window
  }

  function BucketKey(key: bytes, bucket: int): bytes {
    key + [COLON] + FormatInt(bucket)
  }

  datatype Status = Status(allowed: bool, count: int, remaining: int, resetAt: int)

  datatype Reply = Limited(status: Status) | BadLimit | BadWindow | NotNumber

  /** The verdict on a call that drew `count`. */
  function StatusFor(limit: int, count: int, resetAt: int): Status {
    var left := Wrap64(limit - count);
    Status(count <= limit, count, if left < 0 then 0 else left, resetAt)
  }

  /** One call: the clock is read at `now`, the increment lands at `at`. */
  function RateLimit(m: Store, key: bytes, limit: int, window: int, now: int, at: int, defaultTTL: int): (Store, Reply)
  {
    if limit <= 0 then (m, BadLimit)
    else if window <= 0 then (m, BadWindow)
    else
      var bucket := Bucket(now, window);
      var r := Step(m, Increment(BucketKey(key, bucket), 1, window), at, defaultTTL);
      (r.0, if r.1.Number? then Limited(StatusFor(limit, r.1.n, Wrap64(EndOf(bucket, window)))) else NotNumber)
  }

  method Limit(store: MemoryStore.MemoryStore, key: bytes, limit: int, window: int, now: int, at: int)
    returns (r: Reply)
    modifies store
    ensures (store.items, r) == RateLimit(old(store.items), key, limit, window, now, at, store.defaultTTL)
  {
    if limit <= 0 {
      return BadLimit;
    }
    if window <= 0 {
      return BadWindow;
    }
    var bucket := Bucket(now, window);
    var out := store.Increment(BucketKey(key, bucket), 1, window, at);
    if !out.Number? {
      return NotNumber;
    }
    var remaining := Wrap64(limit - out.n);
    if remaining < 0 {
      remaining := 0;
    }
    return Limited(Status(out.n <= limit, out.n, remaining, Wrap64(EndOf(bucket, window))));
  }

  // ------------------------------------------------------------------ bucket keys

  lemma LastColon(a: bytes, x: bytes, b: bytes, y: bytes)
    requires COLON !in x && COLON !in y && a + [COLON] + x == b + [COLON] + y
    ensures a == b && x == y
  {
    var s, t := a + [COLON] + x, b + [COLON] + y;
    assert s[|a|] == COLON && forall i :: |a| < i < |s| ==> s[i] == x[i - |a| - 1];
    assert t[|b|] == COLON && forall i :: |b| < i < |t| ==> t[i] == y[i - |b| - 1];
    assert a == s[..|a|] && b == t[..|b|];
    assert x == s[|a| + 1..] && y == t[|b| + 1..];
  }

  /** Distinct limiter keys, and distinct windows in time, never share a counter. */
  lemma BucketKeyInjective(a: bytes, i: int, b: bytes, j: int)
    requires IsInt64(i) && IsInt64(j) && BucketKey(a, i) == BucketKey(b, j)
    ensures a == b && i == j
  {
    LastColon(a, FormatInt(i), b, FormatInt(j));
    ParseFormat(i);
    ParseFormat(j);
  }

  // ------------------------------------------------------------- a run of one bucket

  /** What happens in a bucket's lifetime: calls of this limiter, and store operations
      on other keys. */
  datatype Event = Call(now: int, at: int) | Other(op: Op, at: int)

  predicate Touches(op: Op, k: bytes) {
    match op
    case DeleteMany(ks) => k in ks
    case Flush => true
    case _ => op.k == k
  }

  /** All calls fall into `bucket`, all increments land before it ends, and nothing else
      touches the counter. */
  ghost predicate InBucket(key: bytes, window: int, bucket: int, evs: seq<Event>)
    requires window > 0
  {
    && (forall i :: 0 <= i < |evs| && evs[i].Call? ==>
          0 <= evs[i].now <= evs[i].at < EndOf(bucket, window) && Bucket(evs[i].now, window) == bucket)
    && (forall i :: 0 <= i < |evs| && evs[i].Other? ==> !Touches(evs[i].op, BucketKey(key, bucket)))
  }

  /** The store after the events, and the calls' replies in order. */
  function Run(m: Store, key: bytes, limit: int, window: int, evs: seq<Event>, defaultTTL: int): (Store, seq<Reply>)
    decreases |evs|
  {
    if evs == [] then (m, [])
    else
      var ev, rest := evs[0], evs[1..];
      if ev.Other? then Run(Step(m, ev.op, ev.at, defaultTTL).0, key, limit, window, rest, defaultTTL)
      else
        var r := RateLimit(m, key, limit, window, ev.now, ev.at, defaultTTL);
        var after := Run(r.0, key, limit, window, rest, defaultTTL);
        (after.0, [r.1] + after.1)
  }

  /** After `n` calls the counter holds `n` and outlives the bucket. */
  ghost predicate Counted(m: Store, bk: bytes, n: nat, resetAt: int) {
    bk in m && m[bk].value == FormatInt(n) && m[bk].expiry >= resetAt
  }

  /** The first call to come finds no live counter; an expired one may be left over. */
  ghost predicate StartsFree(m: Store, bk: bytes, evs: seq<Event>) {
    forall i :: 0 <= i < |evs| && evs[i].Call? && (forall j :: 0 <= j < i ==> evs[j].Other?) ==>
      Find(m, bk, evs[i].at) == None
  }

  /** Where the counter stands before `evs`, with `n` calls made. */
  ghost predicate Stands(m: Store, bk: bytes, n: nat, resetAt: int, evs: seq<Event>) {
    if n == 0 then StartsFree(m, bk, evs) else Counted(m, bk, n, resetAt)
  }

  lemma OtherKeeps(m: Store, bk: bytes, op: Op, at: int, defaultTTL: int)
    requires !Touches(op, bk)
    ensures var m' := Step(m, op, at, defaultTTL).0; (bk in m' <==> bk in m) && (bk in m ==> m'[bk] == m[bk])
  {
  }

  lemma StandsAfterOther(m: Store, bk: bytes, n: nat, resetAt: int, evs: seq<Event>, defaultTTL: int)
    requires evs != [] && evs[0].Other? && !Touches(evs[0].op, bk) && Stands(m, bk, n, resetAt, evs)
    ensures Stands(Step(m, evs[0].op, evs[0].at, defaultTTL).0, bk, n, resetAt, evs[1..])
  {
    var m', rest := Step(m, evs[0].op, evs[0].at, defaultTTL).0, evs[1..];
    OtherKeeps(m, bk, evs[0].op, evs[0].at, defaultTTL);
    if n == 0 {
      forall i | 0 <= i < |rest| && rest[i].Call? && (forall j :: 0 <= j < i ==> rest[j].Other?)
        ensures Find(m', bk, rest[i].at) == None
      {
        assert evs[i + 1] == rest[i];
        forall j | 0 <= j < i + 1
          ensures evs[j].Other?
        {
          assert j > 0 ==> evs[j] == rest[j - 1];
        }
      }
    }
  }

  lemma StandsBeforeCall(m: Store, bk: bytes, n: nat, resetAt: int, evs: seq<Event>)
    requires evs != [] && evs[0].Call? && Stands(m, bk, n, resetAt, evs)
    ensures n == 0 ==> Find(m, bk, evs[0].at) == None
    ensures n > 0 ==> Counted(m, bk, n, resetAt)
  {
  }

  /** A window's arithmetic: the reset time is after now, by at most one window. */
  lemma ResetBounds(now: int, window: int)
    requires now >= 0 && window > 0
    ensures now < EndOf(Bucket(now, window), window) <= now + window
  {
    var b := now / window;
    assert now == b * window + now % window;
    assert (b + 1) * window == b * window + window;
  }

  /** The reply to the k-th call of a bucket. */
  function Verdict(limit: int, k: int, resetAt: int): Reply {
    Limited(Status(k <= limit, k, if limit < k then 0 else limit - k, resetAt))
  }

  lemma CountAdds(m: Store, bk: bytes, n: nat, at: int, window: int, resetAt: int, defaultTTL: int)
    requires window > 0 && n + 1 < TWO_63 && at < resetAt
    requires n == 0 ==> Find(m, bk, at) == None
    requires n > 0 ==> Counted(m, bk, n, resetAt)
    ensures Step(m, Increment(bk, 1, window), at, defaultTTL) == (Put(m, bk, FormatInt(n + 1), at + window),
            Number(n + 1))
  {
    ParseFormat(n);
  }

  lemma CallCounts(m: Store, key: bytes, limit: int, window: int, now: int, at: int, n: nat, defaultTTL: int)
    requires limit > 0 && window > 0 && IsInt64(limit) && n + 1 < TWO_63
    requires 0 <= now <= at < EndOf(Bucket(now, window), window) < TWO_63
    requires n == 0 ==> Find(m, BucketKey(key, Bucket(now, window)), at) == None
    requires n > 0 ==> Counted(m, BucketKey(key, Bucket(now, window)), n, EndOf(Bucket(now, window), window))
    ensures var resetAt := EndOf(Bucket(now, window), window);
            var r := RateLimit(m, key, limit, window, now, at, defaultTTL);
            && Counted(r.0, BucketKey(key, Bucket(now, window)), n + 1, resetAt)
            && r.1 == Verdict(limit, n + 1, resetAt)
  {
    ResetBounds(now, window);
    CountAdds(m, BucketKey(key, Bucket(now, window)), n, at, window, EndOf(Bucket(now, window), window), defaultTTL);
  }

  ghost predicate CountUp(rs: seq<Reply>, limit: int, n: nat, resetAt: int) {
    forall i :: 0 <= i < |rs| ==> rs[i] == Verdict(limit, n + i + 1, resetAt)
  }

  lemma CountUpCons(r: Reply, rs: seq<Reply>, limit: int, n: nat, resetAt: int)
    requires r == Verdict(limit, n + 1, resetAt) && CountUp(rs, limit, n + 1, resetAt)
    ensures CountUp([r] + rs, limit, n, resetAt)
  {
    var all := [r] + rs;
    forall i | 0 <= i < |all|
      ensures all[i] == Verdict(limit, n + i + 1, resetAt)
    {
      if i > 0 {
        assert all[i] == rs[i - 1];
      }
    }
  }

  lemma {:induction false} RunCountsUp(m: Store, key: bytes, limit: int, window: int, bucket: int, evs: seq<Event>,
                                       n: nat, defaultTTL: int)
    requires limit > 0 && window > 0 && IsInt64(limit) && n + |evs| < TWO_63 && EndOf(bucket, window) < TWO_63
    requires InBucket(key, window, bucket, evs)
    requires Stands(m, BucketKey(key, bucket), n, EndOf(bucket, window), evs)
    ensures var r := Run(m, key, limit, window, evs, defaultTTL);
            && CountUp(r.1, limit, n, EndOf(bucket, window))
            && Stands(r.0, BucketKey(key, bucket), n + |r.1|, EndOf(bucket, window), [])
    decreases |evs|
  {
    var resetAt, bk := EndOf(bucket, window), BucketKey(key, bucket);
    if evs == [] {
    } else if evs[0].Other? {
      StandsAfterOther(m, bk, n, resetAt, evs, defaultTTL);
      RunCountsUp(Step(m, evs[0].op, evs[0].at, defaultTTL).0, key, limit, window, bucket, evs[1..], n, defaultTTL);
    } else {
      StandsBeforeCall(m, bk, n, resetAt, evs);
      CallCounts(m, key, limit, window, evs[0].now, evs[0].at, n, defaultTTL);
      var r := RateLimit(m, key, limit, window, evs[0].now, evs[0].at, defaultTTL);
      RunCountsUp(r.0, key, limit, window, bucket, evs[1..], n + 1, defaultTTL);
      CountUpCons(r.1, Run(r.0, key, limit, window, evs[1..], defaultTTL).1, limit, n, resetAt);
    }
  }

  function Allowances(rs: seq<Reply>): nat {
    if rs == [] then 0
    else
      var last := rs[|rs| - 1];
      Allowances(rs[..|rs| - 1]) + if last.Limited? && last.status.allowed then 1 else 0
  }

  lemma {:induction false} AllowancesAreCapped(rs: seq<Reply>, limit: int, resetAt: int)
    requires limit > 0 && CountUp(rs, limit, 0, resetAt)
    ensures Allowances(rs) == if |rs| <= limit then |rs| else limit
  {
    if rs == [] {
    } else {
      AllowancesAreCapped(rs[..|rs| - 1], limit, resetAt);
    }
  }

  /** The fixed-window guarantee for a bucket that starts without a live counter: the k-th
      call gets count k and the verdict that goes with it, exactly min(n, limit) of n calls
      are allowed, and the counter is readable until the bucket's reset time. */
  lemma FixedWindow(m: Store, key: bytes, limit: int, window: int, bucket: int, evs: seq<Event>, defaultTTL: int)
    requires limit > 0 && window > 0 && IsInt64(limit) && |evs| < TWO_63 && EndOf(bucket, window) < TWO_63
    requires InBucket(key, window, bucket, evs) && StartsFree(m, BucketKey(key, bucket), evs)
    ensures var (after, rs) := Run(m, key, limit, window, evs, defaultTTL);
            && (forall i :: 0 <= i < |rs| ==> rs[i] == Verdict(limit, i + 1, EndOf(bucket, window)))
            && Allowances(rs) == (if |rs| <= limit then |rs| else limit)
            && (rs != [] ==> forall t :: t <= EndOf(bucket, window) ==>
               Find(after, BucketKey(key, bucket), t) == Some(FormatInt(|rs|)))
  {
    RunCountsUp(m, key, limit, window, bucket, evs, 0, defaultTTL);
    AllowancesAreCapped(Run(m, key, limit, window, evs, defaultTTL).1, limit, EndOf(bucket, window));
  }

  /** The counter's key is the limiter's key, a colon and the bucket in decimal. */
  lemma BucketKeyLayout(key: bytes, bucket: int)
    requires IsInt64(bucket)
    ensures var bk := BucketKey(key, bucket);
            |bk| > |key| && bk[..|key|] == key && bk[|key|] == 58 && ParseInt(bk[|key| + 1..]) == Some(bucket)
  {
    assert BucketKey(key, bucket)[|key| + 1..] == FormatInt(bucket);
    ParseFormat(bucket);
  }

  /** Buckets count windows: the moment lies in the window its bucket names. */
  lemma BucketCounts(now: int, window: int)
    requires window > 0 && now >= 0
    ensures Bucket(now, window) * window <= now < Bucket(now, window) * window + window
  {
    assert now == now / window * window + now % window;
  }

  /** Before the epoch they mirror those after it. */
  lemma BucketMirrors(now: int, window: int)
    requires window > 0 && now >= 0
    ensures Bucket(-now, window) == -Bucket(now, window)
  {
  }

  /** The error cases come before anything is stored. */
  lemma BadSettingsAreRefused(m: Store, key: bytes, limit: int, window: int, now: int, at: int, defaultTTL: int)
    ensures limit <= 0 ==> RateLimit(m, key, limit, window, now, at, defaultTTL) == (m, BadLimit)
    ensures limit > 0 && window <= 0 ==> RateLimit(m, key, limit, window, now, at, defaultTTL) == (m, BadWindow)
  {
  }
}
