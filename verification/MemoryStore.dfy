/** The in-memory store: an expiring map updated in place. Clock readings are
    parameters; each method is one section of the store's mutex. */
module MemoryStore {
  import opened Bytes
  import opened ExpiringMap

  /** What the engine may hold under a key: the bytes this library writes, or a value of an
      older representation. `Signed` stands for the signed integer types, `Narrow` for the
      unsigned ones of at most 32 bits. */
  datatype Object =
    | Raw(b: bytes)
    | Text(b: bytes)
    | Signed(n: int)
    | Narrow(n: int)
    | Uint(n: int)
    | Uint64(n: int)
    | Foreign

  predicate WellTyped(o: Object) {
    match o
    case Signed(n) => IsInt64(n)
    case Narrow(n) => 0 <= n < 0x1_0000_0000
    case Uint(n) => 0 <= n < TWO_64
    case Uint64(n) => 0 <= n < TWO_64
    case _ => true
  }

  /** The number a counter operation reads: `uint` is converted without a check. */
  function NumberOf(o: Object): Option<int> {
    match o
    case Raw(b) => ParseInt(b)
    case Text(b) => ParseInt(b)
    case Signed(n) => Some(n)
    case Narrow(n) => Some(n)
    case Uint(n) => Some(Wrap64(n))
    case Uint64(n) => if n > TWO_63 - 1 then None else Some(n)
    case Foreign => None
  }

  /** The number an object denotes, if any. */
  function Denotes(o: Object): Option<int> {
    match o
    case Raw(b) => ParseInt(b)
    case Text(b) => ParseInt(b)
    case Foreign => None
    case _ => Some(o.n)
  }

  /** Reading is lossless exactly but for `uint` values beyond int64: a number that is read
      is the one denoted if and only if it is not one of those. */
  lemma ReadsWithoutLoss(o: Object)
    requires WellTyped(o) && NumberOf(o).Some?
    ensures NumberOf(o) == Denotes(o) <==> !(o.Uint? && o.n >= TWO_63)
    ensures IsInt64(NumberOf(o).value)
  {
  }

  /** Refused are the objects that denote no number, and `uint64` values beyond int64. */
  lemma RefusesExactly(o: Object)
    requires WellTyped(o)
    ensures NumberOf(o) == None <==> Denotes(o) == None || (o.Uint64? && o.n >= 0x8000_0000_0000_0000)
    ensures o.Signed? || o.Narrow? || o.Uint? || o.Uint64? ==> Denotes(o) == Some(o.n)
  {
  }

  /** The largest `uint` reads as minus one. */
  lemma LargeUintWraps()
    ensures NumberOf(Uint(TWO_64 - 1)) == Some(-1)
  {
  }

  class MemoryStore {
    var items: Store
    const defaultTTL: int

    constructor (defaultTTL: int)
      ensures items == map[] && this.defaultTTL == defaultTTL
    {
      items := map[];
      this.defaultTTL := defaultTTL;
    }

    method Get(k: bytes, now: int) returns (ok: bool, v: bytes)
      ensures Find(items, k, now) == if ok then Some(v) else None
    {
      if k in items && Live(items[k], now) {
        return true, items[k].value;
      }
      return false, [];
    }

    method Set(k: bytes, v: bytes, ttl: int, now: int)
      modifies this
      ensures items == Step(old(items), Op.Set(k, v, ttl), now, defaultTTL).0
    {
      var t := ttl;
      if t <= 0 {
        t := defaultTTL;
      }
      items := items[k := Item(v, now + t)];
    }

    method Add(k: bytes, v: bytes, ttl: int, now: int) returns (ok: bool)
      modifies this
      ensures items == Step(old(items), Op.Add(k, v, ttl), now, defaultTTL).0
      ensures Created(ok) == Step(old(items), Op.Add(k, v, ttl), now, defaultTTL).1
    {
      var found, _ := Get(k, now);
      if found {
        return false;
      }
      Set(k, v, ttl, now);
      return true;
    }

    method LockAcquire(k: bytes, owner: bytes, ttl: int, now: int) returns (ok: bool)
      modifies this
      ensures items == AddIfAbsent(old(items), k, owner, Expiry(now, ttl, defaultTTL), now)
      ensures ok <==> Find(old(items), k, now) == None
    {
      ok := Add(k, owner, ttl, now);
    }

    method LockRelease(k: bytes, owner: bytes, now: int) returns (ok: bool)
      modifies this
      ensures items == RemoveIfOwner(old(items), k, owner, now)
      ensures ok <==> Find(old(items), k, now) == Some(owner)
    {
      var found, v := Get(k, now);
      if !found || v != owner {
        return false;
      }
      items := items - {k};
      return true;
    }

    method ReadInt64(k: bytes, now: int) returns (r: Option<int>)
      ensures r == Counter(items, k, now)
    {
      var found, v := Get(k, now);
      if !found {
        return Some(0);
      }
      r := NumberOf(Raw(v));
    }

    method Increment(k: bytes, delta: int, ttl: int, now: int) returns (r: Out)
      modifies this
      ensures (items, r) == Step(old(items), Op.Increment(k, delta, ttl), now, defaultTTL)
    {
      var current := ReadInt64(k, now);
      if current == None {
        return NotNumeric;
      }
      var next := Wrap64(current.value + delta);
      Set(k, FormatInt(next), ttl, now);
      return Number(next);
    }

    method Delete(k: bytes)
      modifies this
      ensures items == old(items) - {k}
    {
      items := items - {k};
    }

    method DeleteMany(ks: seq<bytes>)
      modifies this
      ensures items == old(items) - set k | k in ks
    {
      for i := 0 to |ks|
        invariant items == old(items) - set k | k in ks[..i]
      {
        assert ks[..i + 1] == ks[..i] + [ks[i]];
        Delete(ks[i]);
      }
      assert ks[..|ks|] == ks;
    }

    method Flush()
      modifies this
      ensures items == map[]
    {
      items := map[];
    }
  }
}
